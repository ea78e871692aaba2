/** Base64 as in section 4 of RFC 4648, and the modified alphabet of IMAP mailbox names. */
module Base64 {
  type Byte = bv8

  const UPPER: string := "ABCDEFGHIJKLMNOPQRSTUVWXYZ"
  const LOWER: string := "abcdefghijklmnopqrstuvwxyz"
  const DIGITS: string := "0123456789"

  function Table(modified: bool): (t: string)
    ensures |t| == 64
  {
    UPPER + LOWER + DIGITS + if modified then "+," else "+/"
  }

  // What the decoder takes for a character of either alphabet.
  predicate IsBase64Char(c: char) {
    'A' <= c <= 'Z' || 'a' <= c <= 'z' || '0' <= c <= '9' || c == '+' || c == '/'
  }

  type Sextet = x: Byte | x < 64

  // ----- three bytes and four sextets -----

  function First(a: Byte): Sextet {
    (a & 0xfc) >> 2
  }

  function Second(a: Byte, b: Byte): Sextet {
    ((a & 0x03) << 4) + ((b & 0xf0) >> 4)
  }

  function Third(b: Byte, c: Byte): Sextet {
    ((b & 0x0f) << 2) + ((c & 0xc0) >> 6)
  }

  function Fourth(c: Byte): Sextet {
    c & 0x3f
  }

  function Four(a: Byte, b: Byte, c: Byte): seq<Sextet> {
    [First(a), Second(a, b), Third(b, c), Fourth(c)]
  }

  function Three(p: Sextet, q: Sextet, r: Sextet, s: Sextet): (t: seq<Byte>)
    ensures |t| == 3
  {
    [(p << 2) + ((q & 0x30) >> 4), ((q & 0xf) << 4) + ((r & 0x3c) >> 2), ((r & 0x3) << 6) + s]
  }

  lemma ThreeOfFour(a: Byte, b: Byte, c: Byte)
    ensures Three(First(a), Second(a, b), Third(b, c), Fourth(c)) == [a, b, c]
  {
  }

  lemma FourOfThree(p: Sextet, q: Sextet, r: Sextet, s: Sextet)
    ensures var t := Three(p, q, r, s); |t| == 3 && Four(t[0], t[1], t[2]) == [p, q, r, s]
  {
  }

  /** The four sextets hold the same 24 bits as the three bytes, in the same order. */
  lemma SameBits(a: Byte, b: Byte, c: Byte)
    ensures (First(a) as bv24 << 18) | (Second(a, b) as bv24 << 12) | (Third(b, c) as bv24 << 6) | Fourth(c) as bv24
         == (a as bv24 << 16) | (b as bv24 << 8) | c as bv24
  {
  }

  // ----- whole strings -----

  function Sextets(s: seq<Byte>): seq<Sextet> {
    if s == [] then []
    else if |s| < 3 then Four(s[0], if |s| > 1 then s[1] else 0, 0)[..|s| + 1]
    else Four(s[0], s[1], s[2]) + Sextets(s[3..])
  }


  function Get(v: seq<Sextet>, i: nat): Sextet {
    if i < |v| then v[i] else 0
  }

  function Bytes(v: seq<Sextet>): seq<Byte>
    decreases |v|
  {
    if v == [] then []
    else Three(v[0], Get(v, 1), Get(v, 2), Get(v, 3)) + if |v| < 4 then [] else Bytes(v[4..])
  }

  function Letters(v: seq<Sextet>, modified: bool): string {
    seq(|v|, i requires 0 <= i < |v| => Table(modified)[v[i] as int])
  }

  function Equals(n: nat): string {
    seq(n, i => '=')
  }

  function Encoded(s: seq<Byte>, modified: bool): string {
    Letters(Sextets(s), modified) + if modified then "" else Equals((3 - |s| % 3) % 3)
  }

  // The value of a character, by the ranges of the alphabet.
  function Ordinal(c: char): nat
    requires IsBase64Char(c) || c == ','
  {
    if 'A' <= c <= 'Z' then c as int - 'A' as int
    else if 'a' <= c <= 'z' then c as int - 'a' as int + 26
    else if '0' <= c <= '9' then c as int - '0' as int + 52
    else if c == '+' then 62
    else 63
  }

  lemma UpperOrdinal(i: nat)
    requires i < 26
    ensures 'A' <= UPPER[i] <= 'Z' && Ordinal(UPPER[i]) == i
  {
  }

  lemma LowerOrdinal(i: nat)
    requires i < 26
    ensures 'a' <= LOWER[i] <= 'z' && Ordinal(LOWER[i]) == i + 26
  {
  }

  lemma DigitOrdinal(i: nat)
    requires i < 10
    ensures '0' <= DIGITS[i] <= '9' && Ordinal(DIGITS[i]) == i + 52
  {
  }

  lemma TableOrdinal(i: nat, modified: bool)
    requires i < 64
    ensures var c := Table(modified)[i];
      && (IsBase64Char(c) <==> !(modified && i == 63))
      && (IsBase64Char(c) || c == ',') && Ordinal(c) == i && (c == '/' <==> i == 63 && !modified)
  {
    var t, last := Table(modified), if modified then "+," else "+/";
    if i < 26 {
      UpperOrdinal(i);
      assert t[i] == UPPER[i];
    } else if i < 52 {
      LowerOrdinal(i - 26);
      assert t[i] == LOWER[i - 26];
    } else if i < 62 {
      DigitOrdinal(i - 52);
      assert t[i] == DIGITS[i - 52];
    } else {
      assert t[i] == last[i - 62];
    }
  }

  /** The alphabet of table 1 in RFC 4648: which character stands for which six bits; the modified
      one (section 5.1.3 of RFC 3501) differs in the last character only. */
  lemma AlphabetIs(i: nat, modified: bool)
    requires i < 64
    ensures Table(modified)[i] as int ==
      if i < 26 then 65 + i
      else if i < 52 then 97 + (i - 26)
      else if i < 62 then 48 + (i - 52)
      else if i == 62 then 43
      else if modified then 44 else 47
  {
    TableOrdinal(i, modified);
    if i == 63 {
      assert Table(modified)[63] == (if modified then "+," else "+/")[1];
    }
  }

  lemma TableHas(c: char, modified: bool)
    requires IsBase64Char(c) && (modified ==> c != '/')
    ensures Ordinal(c) < 64 && Table(modified)[Ordinal(c)] == c
  {
    var k, t := Ordinal(c), Table(modified);
    if 'A' <= c <= 'Z' {
      UpperOrdinal(k);
      assert t[k] == UPPER[k];
    } else if 'a' <= c <= 'z' {
      LowerOrdinal(k - 26);
      assert t[k] == LOWER[k - 26];
    } else if '0' <= c <= '9' {
      DigitOrdinal(k - 52);
      assert t[k] == DIGITS[k - 52];
    } else {
      var last := if modified then "+," else "+/";
      assert t[k] == last[k - 62];
    }
  }

  // decodeB64char: anything outside the alphabet counts as zero.
  function Value(c: char): Sextet {
    if IsBase64Char(c) then Ordinal(c) as Byte else 0
  }

  lemma ValueOfLetter(e: Sextet, modified: bool)
    requires !(modified && e == 63)
    ensures IsBase64Char(Table(modified)[e as int]) && Value(Table(modified)[e as int]) == e
  {
    TableOrdinal(e as int, modified);
  }

  // The characters the decoder does not skip.
  function Kept(t: string): string {
    if t == "" then "" else KeptOne(t[0]) + Kept(t[1..])
  }

  function KeptOne(c: char): string {
    if IsBase64Char(c) then [c] else ""
  }

  function Values(k: string): seq<Sextet> {
    seq(|k|, i requires 0 <= i < |k| => Value(k[i]))
  }

  function Decoded(t: string): seq<Byte> {
    Bytes(Values(Kept(t)))
  }

  function Zeros(n: nat): seq<Byte> {
    seq(n, i => 0)
  }

  // ----- round trip -----

  lemma {:induction false} KeptSum(a: string, b: string)
    ensures Kept(a + b) == Kept(a) + Kept(b)
  {
    hide KeptOne;
    if a == "" {
      assert a + b == b;
    } else {
      KeptSum(a[1..], b);
      assert (a + b)[1..] == a[1..] + b;
      assert Kept(a + b) == KeptOne(a[0]) + (Kept(a[1..]) + Kept(b));
    }
  }

  lemma {:induction false} KeptNothing(t: string)
    requires forall c :: c in t ==> !IsBase64Char(c)
    ensures Kept(t) == ""
  {
    if t != "" {
      KeptNothing(t[1..]);
    }
  }

  lemma {:induction false} KeptAll(t: string)
    requires forall c :: c in t ==> IsBase64Char(c)
    ensures Kept(t) == t
  {
    if t != "" {
      KeptAll(t[1..]);
    }
  }

  /** Characters outside the alphabet, such as line breaks, change nothing wherever they are. */
  lemma NoiseIgnored(a: string, noise: string, b: string)
    requires forall c :: c in noise ==> !IsBase64Char(c)
    ensures Decoded(a + noise + b) == Decoded(a + b)
  {
    KeptSum(a + noise, b);
    KeptSum(a, noise);
    KeptNothing(noise);
    KeptSum(a, b);
    assert Kept(a) + "" == Kept(a);
  }

  lemma {:induction false} SextetsOfBytes(s: seq<Byte>)
    ensures Bytes(Sextets(s)) == s + Zeros((3 - |s| % 3) % 3)
    ensures |Sextets(s)| == |s| / 3 * 4 + (if |s| % 3 == 0 then 0 else |s| % 3 + 1)
  {
    hide Sextets, Bytes, Four;
    SextetsStep(s);
    if s == [] {
      NoBytes();
    } else if |s| < 3 {
      LastSextets(s);
    } else {
      SextetsOfBytes(s[3..]);
      BytesOfFour(s[0], s[1], s[2], Sextets(s[3..]));
      assert s == [s[0], s[1], s[2]] + s[3..];
    }
  }

  lemma NoBytes()
    ensures Bytes([]) == []
  {
  }

  lemma BytesOfFour(a: Byte, b: Byte, c: Byte, w: seq<Sextet>)
    ensures |Four(a, b, c)| == 4 && Bytes(Four(a, b, c) + w) == [a, b, c] + Bytes(w)
  {
    hide First, Second, Third, Fourth, Three;
    ThreeOfFour(a, b, c);
    assert (Four(a, b, c) + w)[4..] == w;
  }

  lemma LastSextets(s: seq<Byte>)
    requires 0 < |s| < 3
    ensures Bytes(Sextets(s)) == s + Zeros(3 - |s|) && |Sextets(s)| == |s| + 1
  {
    hide First, Second, Third, Fourth, Three;
    var a, b := s[0], if |s| > 1 then s[1] else 0;
    ThreeOfFour(a, b, 0);
    ZeroSextets();
    var v := Sextets(s);
    assert v == Four(a, b, 0)[..|s| + 1];
    assert Get(v, 2) == Third(b, 0) && Get(v, 3) == 0;
    assert Bytes(v) == [a, b, 0];
    assert s + Zeros(3 - |s|) == [a, b, 0];
  }

  lemma ZeroSextets()
    ensures Third(0, 0) == 0 && Fourth(0) == 0
  {
  }

  /** The standard round trip: every byte string comes back, followed by as many zero bytes
      as the last group of three was short of. */
  lemma RoundTrip(s: seq<Byte>)
    ensures Decoded(Encoded(s, false)) == s + Zeros((3 - |s| % 3) % 3)
  {
    var v := Sextets(s);
    var letters, tail := Letters(v, false), Equals((3 - |s| % 3) % 3);
    forall c | c in letters
      ensures IsBase64Char(c)
    {
      var i :| 0 <= i < |letters| && letters[i] == c;
      ValueOfLetter(v[i], false);
    }
    KeptSum(letters, tail);
    KeptAll(letters);
    KeptNothing(tail);
    LettersBack(v, false);
    assert letters + "" == letters;
    SextetsOfBytes(s);
  }

  lemma LettersBack(v: seq<Sextet>, modified: bool)
    requires modified ==> 63 !in v
    ensures Values(Letters(v, modified)) == v
  {
    forall i | 0 <= i < |v|
      ensures Value(Letters(v, modified)[i]) == v[i]
    {
      ValueOfLetter(v[i], modified);
    }
  }

  /** What is encoded is what section 4 of RFC 4648 describes: groups of four characters,
      letters of the alphabet first, then up to two equals signs. */
  lemma EncodedShape(s: seq<Byte>)
    ensures var e := Encoded(s, false);
      && |e| == (|s| + 2) / 3 * 4
      && var n := (3 - |s| % 3) % 3;
         n <= |e| && (forall i :: 0 <= i < |e| - n ==> IsBase64Char(e[i])) && e[|e| - n..] == Equals(n)
  {
    SextetsOfBytes(s);
    var v := Sextets(s);
    forall i | 0 <= i < |v|
      ensures IsBase64Char(Letters(v, false)[i])
    {
      ValueOfLetter(v[i], false);
    }
  }

  // ----- the modified alphabet -----

  function Filled(v: seq<Sextet>): seq<Sextet> {
    v + seq((4 - |v| % 4) % 4, i => 0)
  }

  lemma FilledStep(v: seq<Sextet>, rest: seq<Sextet>)
    requires v != [] && rest == if |v| < 4 then [] else v[4..]
    ensures Filled(v) == [v[0], Get(v, 1), Get(v, 2), Get(v, 3)] + Filled(rest)
  {
  }

  // Sextets can be read back from the bytes that come of them.
  lemma {:induction false} BytesFaithful(v: seq<Sextet>)
    ensures Sextets(Bytes(v)) == Filled(v)
    decreases |v|
  {
    hide First, Second, Third, Fourth, Three;
    if v != [] {
      var rest := if |v| < 4 then [] else v[4..];
      var three := Three(v[0], Get(v, 1), Get(v, 2), Get(v, 3));
      BytesFaithful(rest);
      FourOfThree(v[0], Get(v, 1), Get(v, 2), Get(v, 3));
      assert Bytes(v) == three + Bytes(rest) && Bytes(v)[3..] == Bytes(rest);
      FilledStep(v, rest);
    }
  }

  function Without63(v: seq<Sextet>): seq<Sextet> {
    if v == [] then [] else (if v[0] == 63 then [] else [v[0]]) + Without63(v[1..])
  }

  lemma {:induction false} KeptModified(v: seq<Sextet>)
    ensures Values(Kept(Letters(v, true))) == Without63(v)
  {
    hide Table, Value, IsBase64Char;
    if v != [] {
      var t := Letters(v, true);
      KeptModified(v[1..]);
      assert t[1..] == Letters(v[1..], true);
      TableOrdinal(v[0] as int, true);
      if v[0] != 63 {
        ValueOfLetter(v[0], true);
        assert Kept(t) == [t[0]] + Kept(t[1..]);
      }
    }
  }

  lemma {:induction false} Without63Facts(v: seq<Sextet>)
    ensures 63 !in Without63(v) && (63 !in v ==> Without63(v) == v)
  {
    if v != [] {
      Without63Facts(v[1..]);
    }
  }

  /** The modified alphabet comes back exactly when no sextet is 63, whose comma the decoder
      skips. */
  lemma ModifiedRoundTripIff(s: seq<Byte>)
    ensures Decoded(Encoded(s, true)) == s + Zeros((3 - |s| % 3) % 3) <==> 63 !in Sextets(s)
  {
    hide Sextets, Bytes, Kept, Values, Letters;
    var v := Sextets(s);
    KeptModified(v);
    assert Encoded(s, true) == Letters(v, true);
    Without63Facts(v);
    SextetsOfBytes(s);
    if 63 in v {
      BytesFaithful(v);
      BytesFaithful(Without63(v));
      assert 63 in Filled(v) && 63 !in Filled(Without63(v));
    }
  }

  // ----- the procedures -----

  lemma {:induction false} SextetsSnoc(x: seq<Byte>, y: seq<Byte>)
    requires |x| % 3 == 0
    ensures Sextets(x + y) == Sextets(x) + Sextets(y)
  {
    hide Four, Sextets;
    if x == [] {
      assert x + y == y;
      SextetsStep(x);
    } else {
      SextetsSnoc(x[3..], y);
      assert (x + y)[3..] == x[3..] + y;
      SextetsStep(x);
      SextetsStep(x + y);
    }
  }

  lemma SextetsStep(s: seq<Byte>)
    ensures s == [] ==> Sextets(s) == []
    ensures |s| >= 3 ==> Sextets(s) == Four(s[0], s[1], s[2]) + Sextets(s[3..])
  {
    hide Four;
  }

  /** Each group of three bytes is encoded by the four characters for its 24 bits, in order. */
  lemma {:induction false} EncodedGroup(s: seq<Byte>, k: nat, modified: bool)
    requires 3 * k + 2 < |s|
    ensures |Encoded(s, modified)| >= 4 * k + 4
    ensures var a, b, c := s[3 * k], s[3 * k + 1], s[3 * k + 2];
      Encoded(s, modified)[4 * k..4 * k + 4] == Letters([First(a), Second(a, b), Third(b, c), Fourth(c)], modified)
  {
    hide First, Second, Third, Fourth, Table;
    SextetsAt(s, k);
    var v := Sextets(s);
    var e := Encoded(s, modified);
    assert e[4 * k..4 * k + 4] == Letters(v, modified)[4 * k..4 * k + 4];
    assert Letters(v, modified)[4 * k..4 * k + 4] == Letters(v[4 * k..4 * k + 4], modified);
  }

  lemma SliceAfter<T>(a: seq<T>, b: seq<T>, i: nat)
    requires |a| == 4 && i + 4 <= |b|
    ensures (a + b)[4 + i..4 + i + 4] == b[i..i + 4]
  {
  }

  lemma {:induction false} SextetsAt(s: seq<Byte>, k: nat)
    requires 3 * k + 2 < |s|
    ensures |Sextets(s)| >= 4 * k + 4
    ensures Sextets(s)[4 * k..4 * k + 4] == Four(s[3 * k], s[3 * k + 1], s[3 * k + 2])
    decreases |s|
  {
    hide First, Second, Third, Fourth;
    if k > 0 {
      SextetsAt(s[3..], k - 1);
      var rest := Sextets(s[3..]);
      SliceAfter(Four(s[0], s[1], s[2]), rest, 4 * (k - 1));
    }
  }

  lemma {:induction false} BytesSnoc(x: seq<Sextet>, y: seq<Sextet>)
    requires |x| % 4 == 0
    ensures Bytes(x + y) == Bytes(x) + Bytes(y)
  {
    hide Three, Bytes;
    BytesStep(x);
    BytesStep(x + y);
    if x == [] {
      assert x + y == y;
    } else {
      BytesSnoc(x[4..], y);
      assert (x + y)[4..] == x[4..] + y;
    }
  }

  lemma BytesStep(v: seq<Sextet>)
    ensures v == [] ==> Bytes(v) == []
    ensures |v| >= 4 ==> Bytes(v) == Three(v[0], v[1], v[2], v[3]) + Bytes(v[4..])
  {
    hide Three;
  }

  // Appends the first n of the four characters that stand for the three bytes of the chunk.
  method AppendChunk(chunk: array<Byte>, n: nat, modified: bool, out: string) returns (r: string)
    requires chunk.Length == 3 && n <= 4
    ensures r == out + Letters(Four(chunk[0], chunk[1], chunk[2])[..n], modified)
  {
    hide First, Second, Third, Fourth;
    var echunk := new Sextet[4];
    echunk[0], echunk[1] := First(chunk[0]), Second(chunk[0], chunk[1]);
    echunk[2], echunk[3] := Third(chunk[1], chunk[2]), Fourth(chunk[2]);
    ghost var four := Four(chunk[0], chunk[1], chunk[2]);
    assert forall j :: 0 <= j < 4 ==> echunk[j] == four[j];
    r := out;
    for i := 0 to n
      invariant r == out + Letters(four[..i], modified)
    {
      r := r + [Table(modified)[echunk[i] as int]];
      assert Letters(four[..i + 1], modified) == Letters(four[..i], modified) + [Table(modified)[four[i] as int]];
    }
  }

  // The rest of a string, after whole groups of three.
  method EncodeRest(ghost done: seq<Byte>, chunk: array<Byte>, n: nat, modified: bool, begun: string)
    returns (out: string)
    requires chunk.Length == 3 && 0 < n < 3 && |done| % 3 == 0
    requires begun == Letters(Sextets(done), modified)
    modifies chunk
    ensures out == Encoded(done + old(chunk[..n]), modified)
  {
    hide First, Second, Third, Fourth, Four, Table, Sextets, Letters;
    ghost var last := chunk[..n];
    var i := n;
    for j := i to 3
      invariant chunk[..n] == last && forall k :: n <= k < j ==> chunk[k] == 0
    {
      chunk[j] := 0;
    }
    assert [chunk[0], chunk[1], chunk[2]][..n] == last;
    LastChunk(done, n, chunk[0], chunk[1], chunk[2], modified);
    out := AppendChunk(chunk, i + 1, modified, begun);
    if !modified {
      ghost var letters := out;
      while i < 3
        invariant n <= i <= 3 && out == letters + Equals(i - n)
      {
        out := out + "=";
        i := i + 1;
      }
    }
  }

  method Base64Encode(s: seq<Byte>, modified: bool) returns (out: string)
    ensures out == Encoded(s, modified)
  {
    hide First, Second, Third, Fourth, Four, Table, Letters, Encoded;
    var chunk := new Byte[3];
    var i, p := 0, 0;
    ghost var done := [];
    out := "";
    NoLetters(modified);
    while p < |s|
      invariant 0 <= p <= |s| && 0 <= i < 3 && |done| % 3 == 0
      invariant s[..p] == done + chunk[..i]
      invariant out == Letters(Sextets(done), modified)
    {
      ghost var part := chunk[..i];
      NextByte(s, p, done, part);
      chunk[i] := s[p];
      assert chunk[..i + 1] == part + [s[p]];
      i, p := i + 1, p + 1;
      if i == 3 {
        ChunkDone(done, chunk[0], chunk[1], chunk[2], modified);
        out := AppendChunk(chunk, 4, modified, out);
        i, done := 0, done + [chunk[0], chunk[1], chunk[2]];
      }
    }
    assert s == done + chunk[..i];
    if i > 0 {
      out := EncodeRest(done, chunk, i, modified, out);
    } else {
      WholeGroups(s, done, modified);
    }
  }

  lemma NextByte(s: seq<Byte>, p: nat, done: seq<Byte>, part: seq<Byte>)
    requires p < |s| && s[..p] == done + part
    ensures s[..p + 1] == done + (part + [s[p]])
  {
    assert s[..p + 1] == s[..p] + [s[p]];
  }

  lemma NoLetters(modified: bool)
    ensures Letters(Sextets([]), modified) == ""
  {
  }

  lemma WholeGroups(s: seq<Byte>, done: seq<Byte>, modified: bool)
    requires s == done + [] && |done| % 3 == 0
    ensures Encoded(s, modified) == Letters(Sextets(done), modified)
  {
    hide Letters, Sextets;
    assert s == done;
  }

  lemma ChunkDone(done: seq<Byte>, a: Byte, b: Byte, c: Byte, modified: bool)
    requires |done| % 3 == 0
    ensures Letters(Sextets(done + [a, b, c]), modified)
         == Letters(Sextets(done), modified) + Letters(Four(a, b, c)[..4], modified)
  {
    hide First, Second, Third, Fourth, Table, Sextets, Letters;
    SextetsSnoc(done, [a, b, c]);
    OneGroup(a, b, c);
    assert Four(a, b, c)[..4] == Four(a, b, c);
    LettersSum(Sextets(done), Four(a, b, c), modified);
  }

  lemma OneGroup(a: Byte, b: Byte, c: Byte)
    ensures Sextets([a, b, c]) == Four(a, b, c)
  {
    assert [a, b, c][3..] == [];
  }

  lemma LastChunk(done: seq<Byte>, i: nat, a: Byte, b: Byte, c: Byte, modified: bool)
    requires 0 < i < 3 && |done| % 3 == 0 && c == 0 && (i == 1 ==> b == 0)
    ensures Letters(Sextets(done + [a, b, c][..i]), modified)
         == Letters(Sextets(done), modified) + Letters(Four(a, b, c)[..i + 1], modified)
  {
    hide First, Second, Third, Fourth, Table, Sextets, Four, Letters;
    var last := [a, b, c][..i];
    SextetsSnoc(done, last);
    PartialGroup(i, a, b, c);
    LettersSum(Sextets(done), Sextets(last), modified);
  }

  lemma PartialGroup(i: nat, a: Byte, b: Byte, c: Byte)
    requires 0 < i < 3 && c == 0 && (i == 1 ==> b == 0)
    ensures Sextets([a, b, c][..i]) == Four(a, b, c)[..i + 1]
  {
    hide First, Second, Third, Fourth;
  }

  lemma LettersSum(v: seq<Sextet>, w: seq<Sextet>, modified: bool)
    ensures Letters(v + w, modified) == Letters(v, modified) + Letters(w, modified)
  {
    hide Table;
  }

  method DecodeB64Char(c: char, modified: bool) returns (i: Sextet)
    requires modified ==> c != '/'
    ensures i == Value(c)
  {
    if !IsBase64Char(c) {
      return 0;
    }
    TableHas(c, modified);
    var k := 0;
    while Table(modified)[k] != c
      invariant k <= Ordinal(c)
      decreases Ordinal(c) - k
    {
      k := k + 1;
    }
    TableOrdinal(k, modified);
    i := k as Byte;
  }

  // The values of the four characters of a chunk, as three bytes.
  method DecodeChunk(chunk: array<char>, modified: bool) returns (three: seq<Byte>)
    requires chunk.Length == 4 && (modified ==> '/' !in chunk[..])
    ensures three == Three(Value(chunk[0]), Value(chunk[1]), Value(chunk[2]), Value(chunk[3]))
  {
    assert forall b :: 0 <= b < 4 ==> chunk[b] in chunk[..];
    var p := DecodeB64Char(chunk[0], modified);
    var q := DecodeB64Char(chunk[1], modified);
    var r := DecodeB64Char(chunk[2], modified);
    var s := DecodeB64Char(chunk[3], modified);
    three := Three(p, q, r, s);
  }

  /** Decodes up to the end of the string. In the modified alphabet there must be no slash,
      which the search through the table would not find. */
  method Base64Decode(t: string, modified: bool) returns (ret: seq<Byte>)
    requires modified ==> '/' !in t
    ensures ret == Decoded(t)
  {
    hide Value, Three, IsBase64Char, Kept, Bytes, Values;
    var chunk := new char[4](i => '\0');
    var a, i := 0, 0;
    ghost var done := "";
    ret := [];
    NothingDecoded();
    while i < |t|
      invariant 0 <= i <= |t| && 0 <= a < 4 && |done| % 4 == 0
      invariant Kept(t[..i]) == done + chunk[..a] && ret == Bytes(Values(done))
      invariant modified ==> '/' !in chunk[..]
    {
      var c := t[i];
      KeptSnoc(t, i);
      i := i + 1;
      if IsBase64Char(c) {
        chunk[a] := c;
        a := a + 1;
        assert Kept(t[..i]) == done + chunk[..a];
        if a == 4 {
          GroupDone(done, chunk[..]);
          var three := DecodeChunk(chunk, modified);
          ret, a, done := ret + three, 0, done + chunk[..];
        }
      }
    }
    assert t[..i] == t;
    if a != 0 {
      ghost var last := chunk[..a];
      for b := a to 4
        invariant chunk[..a] == last && (modified ==> '/' !in chunk[..])
        invariant forall j :: a <= j < b ==> chunk[j] == '\0'
      {
        chunk[b] := '\0';
      }
      LastGroup(done, last, chunk[..]);
      var three := DecodeChunk(chunk, modified);
      ret := ret + three;
    } else {
      assert Kept(t) == done;
    }
  }

  lemma NothingDecoded()
    ensures Kept("") == "" && Bytes(Values("")) == []
  {
  }

  lemma KeptSnoc(t: string, i: nat)
    requires i < |t|
    ensures Kept(t[..i + 1]) == Kept(t[..i]) + if IsBase64Char(t[i]) then [t[i]] else []
  {
    KeptSum(t[..i], [t[i]]);
    assert t[..i + 1] == t[..i] + [t[i]];
    assert [t[i]][1..] == [];
  }

  lemma GroupDone(done: string, k: string)
    requires |done| % 4 == 0 && |k| == 4
    ensures Bytes(Values(done + k)) == Bytes(Values(done)) + Three(Value(k[0]), Value(k[1]), Value(k[2]), Value(k[3]))
  {
    hide Value, Three;
    assert Values(done + k) == Values(done) + Values(k);
    BytesSnoc(Values(done), Values(k));
    assert Values(k)[4..] == [];
  }

  // The last characters, filled up with zero characters, which count as zero.
  lemma LastGroup(done: string, last: string, k: string)
    requires |done| % 4 == 0 && 0 < |last| < 4 == |k| && k[..|last|] == last
    requires forall j :: |last| <= j < 4 ==> k[j] == '\0'
    ensures Bytes(Values(done + last)) == Bytes(Values(done)) + Three(Value(k[0]), Value(k[1]), Value(k[2]), Value(k[3]))
  {
    hide Three;
    var v := Values(last);
    assert Values(done + last) == Values(done) + v;
    BytesSnoc(Values(done), v);
    assert forall j :: 0 <= j < 4 ==> Value(k[j]) == Get(v, j);
  }
}
