/** Streaming MD5: the buffered, incremental code against the one-shot definition of
    RFC 1321. The compression of one block is a parameter. */
module Md5 {
  type Byte = x: int | 0 <= x < 0x100
  type Word = x: int | 0 <= x < 0x1_0000_0000

  datatype Words = Words(a: Word, b: Word, c: Word, d: Word)

  type Compress = (Words, seq<Byte>) -> Words

  const START: Words := Words(0x67452301, 0xefcdab89, 0x98badcfe, 0x10325476)

  const TWO32: int := 0x1_0000_0000
  const TWO64: int := 0x1_0000_0000_0000_0000

  // ----- the definition -----

  // All full blocks of s, in order; what is left over at the end is ignored.
  function Blocks(f: Compress, h: Words, s: seq<Byte>): Words
    decreases |s|
  {
    if |s| < 64 then h else Blocks(f, f(h, s[..64]), s[64..])
  }

  function Remainder(s: seq<Byte>): seq<Byte> {
    s[|s| - |s| % 64..]
  }

  // The n low-order bytes of x, least significant first.
  function LittleEndian(x: nat, n: nat): seq<Byte> {
    if n == 0 then [] else [x % 0x100] + LittleEndian(x / 0x100, n - 1)
  }

  // Section 3.1 of RFC 1321: a one bit, then zero bits up to 56 bytes modulo 64.
  function Padding(length: nat): seq<Byte> {
    [0x80] + seq((55 - length) % 64, i => 0)
  }

  // Section 3.2: the length in bits before padding, modulo 2^64.
  function Padded(message: seq<Byte>): seq<Byte> {
    message + Padding(|message|) + LittleEndian(8 * |message| % TWO64, 8)
  }

  function Encode(h: Words): seq<Byte> {
    LittleEndian(h.a, 4) + LittleEndian(h.b, 4) + LittleEndian(h.c, 4) + LittleEndian(h.d, 4)
  }

  function Digest(f: Compress, message: seq<Byte>): seq<Byte> {
    Encode(Blocks(f, START, Padded(message)))
  }

  // ----- facts about the definition -----

  lemma {:induction false} LittleEndianLength(x: nat, n: nat)
    ensures |LittleEndian(x, n)| == n
  {
    if n > 0 {
      LittleEndianLength(x / 0x100, n - 1);
    }
  }

  // The number whose digits to base 256 these are.
  function Value(s: seq<Byte>): nat {
    if s == [] then 0 else s[0] + 0x100 * Value(s[1..])
  }

  function Power(n: nat): nat {
    if n == 0 then 1 else 0x100 * Power(n - 1)
  }

  /** Nothing is lost in the encoding of a length or of a digest. */
  lemma {:induction false} LittleEndianValue(x: nat, n: nat)
    requires x < Power(n)
    ensures Value(LittleEndian(x, n)) == x
  {
    if n > 0 {
      assert x / 0x100 < Power(n - 1);
      LittleEndianValue(x / 0x100, n - 1);
    }
  }

  // The four bytes of a word, least significant first (section 2 of RFC 1321).
  function FourBytes(x: Word): seq<Byte> {
    [x % 0x100, x / 0x100 % 0x100, x / 0x1_0000 % 0x100, x / 0x100_0000]
  }

  lemma FourOfWord(x: Word)
    ensures LittleEndian(x, 4) == FourBytes(x)
  {
    assert LittleEndian(x / 0x100 / 0x100 / 0x100 / 0x100, 0) == [];
    assert x / 0x100 / 0x100 == x / 0x1_0000 && x / 0x1_0000 / 0x100 == x / 0x100_0000;
    assert LittleEndian(x / 0x100_0000, 1) == [x / 0x100_0000];
    assert LittleEndian(x / 0x1_0000, 2) == [x / 0x1_0000 % 0x100] + LittleEndian(x / 0x100_0000, 1);
    assert LittleEndian(x / 0x100, 3) == [x / 0x100 % 0x100] + LittleEndian(x / 0x1_0000, 2);
  }

  /** The digest begins with the low-order byte of the first word and ends with the high-order
      byte of the last (section 3.5 of RFC 1321). */
  lemma DigestBytes(h: Words)
    ensures Encode(h) == FourBytes(h.a) + FourBytes(h.b) + FourBytes(h.c) + FourBytes(h.d)
  {
    hide LittleEndian, FourBytes;
    FourOfWord(h.a);
    FourOfWord(h.b);
    FourOfWord(h.c);
    FourOfWord(h.d);
  }

  /** The chaining value starts with the bytes 01 23 45 67 89 ab cd ef and the same backwards
      (section 3.3 of RFC 1321). */
  lemma StartBytes()
    ensures Encode(START) ==
      [0x01, 0x23, 0x45, 0x67, 0x89, 0xab, 0xcd, 0xef, 0xfe, 0xdc, 0xba, 0x98, 0x76, 0x54, 0x32, 0x10]
  {
    hide Encode, FourBytes;
    DigestBytes(START);
    FourAre(0x67452301, 0x01, 0x23, 0x45, 0x67);
    FourAre(0xefcdab89, 0x89, 0xab, 0xcd, 0xef);
    FourAre(0x98badcfe, 0xfe, 0xdc, 0xba, 0x98);
    FourAre(0x10325476, 0x76, 0x54, 0x32, 0x10);
  }

  lemma FourAre(x: Word, a: Byte, b: Byte, c: Byte, d: Byte)
    requires x == a + 0x100 * b + 0x1_0000 * c + 0x100_0000 * d
    ensures FourBytes(x) == [a, b, c, d]
  {
    assert x / 0x100 == b + 0x100 * c + 0x1_0000 * d;
    assert x / 0x1_0000 == c + 0x100 * d;
    assert x / 0x100_0000 == d;
  }

  lemma {:induction false} LittleEndianSplit(lo: nat, hi: nat, k: nat, n: nat)
    requires lo < Power(k)
    ensures LittleEndian(lo + Power(k) * hi, k + n) == LittleEndian(lo, k) + LittleEndian(hi, n)
  {
    if k == 0 {
      assert lo + Power(k) * hi == hi;
      assert LittleEndian(lo, k) == [];
    } else {
      var m := Power(k - 1) * hi;
      assert Power(k) * hi == 0x100 * m;
      ShiftedSum(lo, m);
      LittleEndianSplit(lo / 0x100, hi, k - 1, n);
      LowByte(lo + 0x100 * m, k + n);
      LowByte(lo, k);
    }
  }

  lemma LowByte(x: nat, n: nat)
    requires n > 0
    ensures LittleEndian(x, n) == [x % 0x100] + LittleEndian(x / 0x100, n - 1)
  {
  }

  lemma ShiftedSum(lo: nat, m: nat)
    ensures (lo + 0x100 * m) % 0x100 == lo % 0x100 && (lo + 0x100 * m) / 0x100 == lo / 0x100 + m
  {
  }

  lemma Modulo(x: int, r: int, k: int, m: int)
    requires m > 0 && 0 <= r < m && x == r + m * k
    ensures x % m == r
  {
    var j := x / m - k;
    assert m * j == r - x % m;
    assert j == 0;
  }

  /** The padded message is a whole number of blocks, and the padding is at least one and at
      most 64 bytes long. */
  lemma PaddedLength(message: seq<Byte>)
    ensures |message + Padding(|message|)| % 64 == 56
    ensures 1 <= |Padding(|message|)| <= 64
    ensures |Padded(message)| % 64 == 0 && |Padded(message)| >= |message| + 9
  {
    var n := |message|;
    var k := (55 - n) / 64;
    assert n + 1 + (55 - n) % 64 == 56 - 64 * k;
    Modulo(n + 1 + (55 - n) % 64, 56, -k, 64);
    Modulo(n + 1 + (55 - n) % 64 + 8, 0, 1 - k, 64);
    LittleEndianLength(8 * n % TWO64, 8);
  }

  /** The padded message is the message, the byte 80, zeros, and in the last eight bytes the length
      in bits modulo 2^64, least significant byte first. */
  lemma PaddedBytes(message: seq<Byte>)
    ensures var n, p := |message|, Padded(message);
      && |p| >= n + 9 && p[..n] == message && p[n] == 0x80
      && (forall i :: n < i < |p| - 8 ==> p[i] == 0)
      && Value(p[|p| - 8..]) == 8 * n % 0x1_0000_0000_0000_0000
  {
    var n, p := |message|, Padded(message);
    var length := LittleEndian(8 * n % TWO64, 8);
    PaddedLength(message);
    LittleEndianLength(8 * n % TWO64, 8);
    EightDigits();
    LittleEndianValue(8 * n % TWO64, 8);
    assert p[|p| - 8..] == length;
    assert p[..n] == message;
  }

  lemma EightDigits()
    ensures Power(8) == TWO64
  {
    assert Power(4) == 0x1_0000_0000;
    assert Power(8) == 0x100 * (0x100 * (0x100 * (0x100 * Power(4))));
  }

  /** The value of eight bytes, written out. */
  lemma ValueOfEight(s: seq<Byte>)
    requires |s| == 8
    ensures Value(s) == (s[0] as int) + 0x100 * (s[1] as int) + 0x1_0000 * (s[2] as int) + 0x100_0000 * (s[3] as int)
      + 0x1_0000_0000 * (s[4] as int) + 0x100_0000_0000 * (s[5] as int) + 0x1_0000_0000_0000 * (s[6] as int)
      + 0x100_0000_0000_0000 * (s[7] as int)
  {
    ValueFrom(s, 7);
    ValueFrom(s, 6);
    ValueFrom(s, 5);
    ValueFrom(s, 4);
    ValueFrom(s, 3);
    ValueFrom(s, 2);
    ValueFrom(s, 1);
    assert s[8..] == [] && s[0..] == s;
  }

  lemma ValueFrom(s: seq<Byte>, i: nat)
    requires i < |s|
    ensures Value(s[i..]) == s[i] + 0x100 * Value(s[i + 1..])
  {
    assert s[i..][1..] == s[i + 1..];
  }

  lemma {:induction false} BlocksOfSum(f: Compress, h: Words, s: seq<Byte>, t: seq<Byte>)
    requires |s| % 64 == 0
    ensures Blocks(f, h, s + t) == Blocks(f, Blocks(f, h, s), t)
    decreases |s|
  {
    if |s| < 64 {
      assert s + t == t;
    } else {
      assert (s + t)[..64] == s[..64] && (s + t)[64..] == s[64..] + t;
      BlocksOfSum(f, f(h, s[..64]), s[64..], t);
    }
  }

  // Full blocks with a rest shorter than a block.
  lemma BlocksAndRest(f: Compress, h: Words, s: seq<Byte>, t: seq<Byte>)
    requires |s| % 64 == 0 && |t| < 64
    ensures Blocks(f, h, s + t) == Blocks(f, h, s) && Remainder(s + t) == t
  {
    BlocksOfSum(f, h, s, t);
    assert (s + t)[|s|..] == t;
  }

  lemma OneBlock(f: Compress, h: Words, s: seq<Byte>, b: seq<Byte>)
    requires |s| % 64 == 0 && |b| == 64
    ensures Blocks(f, h, s + b) == f(Blocks(f, h, s), b)
  {
    BlocksOfSum(f, h, s, b);
    assert b[..64] == b;
  }

  // ----- the length in two words -----

  // A sum that has wrapped around is less than either operand.
  lemma Carry(x: Word, y: Word)
    ensures var low := (x + y) % TWO32; x + y == low + TWO32 * (if low < y then 1 else 0)
  {
  }

  lemma NextWord(x: nat)
    ensures (x + 1) % TWO32 == (x % TWO32 + 1) % TWO32
  {
    var k, m := x / TWO32, x % TWO32;
    if m + 1 < TWO32 {
      Modulo(x + 1, m + 1, k, TWO32);
    } else {
      Modulo(x + 1, 0, k + 1, TWO32);
    }
  }

  // Adding n bytes with a carry from the low to the high word.
  lemma CountStep(count0: Word, count1: Word, length: nat, n: nat)
    requires count0 + TWO32 * count1 == 8 * length % TWO64
    ensures var bits := 8 * n % TWO32;
      var low := (count0 + bits) % TWO32;
      var high := (count1 + n / 0x2000_0000) % TWO32;
      var carried := if low < bits then (high + 1) % TWO32 else high;
      low + TWO32 * carried == 8 * (length + n) % TWO64
  {
    var bits := 8 * n % TWO32;
    var low := (count0 + bits) % TWO32;
    var carry := if low < bits then 1 else 0;
    var sum := count1 + n / 0x2000_0000 + carry;
    assert 8 * n == bits + TWO32 * (n / 0x2000_0000);
    Carry(count0, bits);
    var k := 8 * length / TWO64;
    assert 8 * (length + n) == low + TWO32 * (sum % TWO32) + TWO64 * (sum / TWO32 + k);
    Modulo(8 * (length + n), low + TWO32 * (sum % TWO32), sum / TWO32 + k, TWO64);
    NextWord(count1 + n / 0x2000_0000);
  }

  // Where in the buffer the next byte goes, read off the low word.
  lemma OffsetFromCount(count0: Word, count1: Word, length: nat)
    requires count0 + TWO32 * count1 == 8 * length % TWO64
    ensures count0 / 8 % 64 == length % 64
  {
    var k := 8 * length / TWO64;
    assert 8 * length == count0 + TWO32 * count1 + TWO64 * k;
    var m := count0 / 8;
    assert length == m + 0x2000_0000 * count1 + 0x2000_0000_0000_0000 * k;
    Modulo(length, m % 64, m / 64 + 0x80_0000 * count1 + 0x80_0000_0000_0000 * k, 64);
  }

  // ----- the state -----

  datatype Snapshot = Snapshot(count0: Word, count1: Word, abcd: Words, buf: seq<Byte>)

  /** The state after the bytes of message, in whatever pieces they came. */
  predicate Represents(f: Compress, s: Snapshot, message: seq<Byte>) {
    && s.count0 + TWO32 * s.count1 == 8 * |message| % TWO64
    && s.abcd == Blocks(f, START, message)
    && |s.buf| == 64 && s.buf[..|message| % 64] == Remainder(message)
  }

  /** The state is determined by the message, but for bytes of the buffer that do not count. */
  lemma ChunkIndependent(f: Compress, s: Snapshot, t: Snapshot, message: seq<Byte>)
    requires Represents(f, s, message) && Represents(f, t, message)
    ensures s.count0 == t.count0 && s.count1 == t.count1 && s.abcd == t.abcd
    ensures s.buf[..s.count0 / 8 % 64] == t.buf[..t.count0 / 8 % 64]
  {
    OffsetFromCount(s.count0, s.count1, |message|);
    OffsetFromCount(t.count0, t.count1, |message|);
    Modulo(s.count0 + TWO32 * s.count1, s.count0, s.count1, TWO32);
    Modulo(t.count0 + TWO32 * t.count1, t.count0, t.count1, TWO32);
  }

  function Concat(chunks: seq<seq<Byte>>): seq<Byte> {
    if chunks == [] then [] else chunks[0] + Concat(chunks[1..])
  }

  lemma {:induction false} ConcatSnoc(chunks: seq<seq<Byte>>, i: nat)
    requires i < |chunks|
    ensures Concat(chunks[..i + 1]) == Concat(chunks[..i]) + chunks[i]
  {
    if i == 0 {
      assert chunks[..1][1..] == [];
    } else {
      ConcatSnoc(chunks[1..], i - 1);
      assert chunks[..i + 1][1..] == chunks[1..][..i] && chunks[..i][1..] == chunks[1..][..i - 1];
    }
  }

  // The part of a message that has been compressed.
  function Whole(s: seq<Byte>): (q: seq<Byte>)
    ensures |q| % 64 == 0 && s == q + Remainder(s) && |Remainder(s)| == |s| % 64
  {
    s[..|s| - |s| % 64]
  }

  const PAD: seq<Byte> := [0x80] + seq(63, i => 0)

  lemma PadPrefix(length: nat, count: nat)
    requires count % 64 == length % 64
    ensures (55 - count) % 64 == (55 - length) % 64
    ensures PAD[..(55 - count) % 64 + 1] == Padding(length)
  {
    Modulo(55 - count, (55 - length) % 64, (55 - length) / 64 + length / 64 - count / 64, 64);
    var k := (55 - count) % 64;
    assert PAD[1..k + 1] == seq(k, i => 0);
  }

  lemma NextBlock(done: seq<Byte>, data: seq<Byte>, from: nat, p: nat)
    requires from <= p <= p + 64 <= |data|
    ensures done + data[from..p] + data[p..p + 64] == done + data[from..p + 64]
  {
    assert data[from..p] + data[p..p + 64] == data[from..p + 64];
  }

  // The message gets longer, but not by enough to complete a block.
  lemma ShortOfBlock(f: Compress, s: seq<Byte>, d: seq<Byte>)
    requires |s| % 64 + |d| < 64
    ensures Blocks(f, START, s + d) == Blocks(f, START, s)
    ensures Remainder(s + d) == Remainder(s) + d && |s + d| % 64 == |s| % 64 + |d|
  {
    hide Blocks, Remainder;
    var q, rest := Whole(s), Remainder(s);
    BlocksAndRest(f, START, q, rest);
    BlocksAndRest(f, START, q, rest + d);
    assert s + d == q + (rest + d);
    Modulo(|s + d|, |rest + d|, |q| / 64, 64);
  }

  lemma BlockCompleted(f: Compress, s: seq<Byte>, d: seq<Byte>)
    requires |s| % 64 + |d| == 64
    ensures |s + d| % 64 == 0
    ensures Blocks(f, START, s + d) == f(Blocks(f, START, s), Remainder(s) + d)
  {
    hide Blocks, Remainder;
    var q, rest := Whole(s), Remainder(s);
    BlocksAndRest(f, START, q, rest);
    OneBlock(f, START, q, rest + d);
    assert s + d == q + (rest + d);
    Modulo(|s + d|, 0, |q| / 64 + 1, 64);
  }

  class Md5State {
    const process: Compress
    var count0: Word
    var count1: Word
    var abcd: Words
    const buf: array<Byte>
    ghost var message: seq<Byte>

    ghost function Current(): Snapshot
      reads this, buf
    {
      Snapshot(count0, count1, abcd, buf[..])
    }

    ghost predicate Valid()
      reads this, buf
    {
      Represents(process, Current(), message)
    }

    constructor (process: Compress)
      ensures Valid() && message == [] && fresh(buf) && this.process == process
    {
      this.process := process;
      count0, count1, abcd, message := 0, 0, START, [];
      buf := new Byte[64];
    }

    // The length of the message, in bits, goes up by 8 * nbytes.
    method AddLength(nbytes: nat, ghost length: nat)
      requires 0 < nbytes < 0x8000_0000 && count0 + TWO32 * count1 == 8 * length % TWO64
      modifies this`count0, this`count1
      ensures count0 + TWO32 * count1 == 8 * (length + nbytes) % TWO64
    {
      CountStep(count0, count1, length, nbytes);
      var nbits := nbytes * 8 % TWO32;
      count1 := (count1 + nbytes / 0x2000_0000) % TWO32;
      count0 := (count0 + nbits) % TWO32;
      if count0 < nbits {
        count1 := (count1 + 1) % TWO32;
      }
    }

    // memcpy into the buffer.
    method Copy(offset: nat, data: seq<Byte>, p: nat, n: nat)
      requires offset + n <= buf.Length && p + n <= |data|
      modifies buf
      ensures buf[..offset + n] == old(buf[..offset]) + data[p..p + n]
    {
      forall i | 0 <= i < n {
        buf[offset + i] := data[p + i];
      }
    }

    // The loop over full blocks; done is what has been compressed so far.
    method ProcessFull(data: seq<Byte>, from: nat, ghost done: seq<Byte>) returns (p: nat)
      requires from <= |data| && |done| % 64 == 0 && abcd == Blocks(process, START, done)
      modifies this`abcd
      ensures from <= p <= |data| && |data| - p < 64 && (p - from) % 64 == 0
      ensures abcd == Blocks(process, START, done + data[from..p])
    {
      hide Blocks;
      p := from;
      assert done + data[from..from] == done;
      while |data| - p >= 64
        invariant from <= p <= |data| && (p - from) % 64 == 0
        invariant abcd == Blocks(process, START, done + data[from..p])
      {
        OneBlock(process, START, done + data[from..p], data[p..p + 64]);
        NextBlock(done, data, from, p);
        abcd := process(abcd, data[p..p + 64]);
        p := p + 64;
      }
    }

    // Blocks and rest, once the buffer is empty; done is a whole number of blocks.
    method Absorb(data: seq<Byte>, from: nat, ghost done: seq<Byte>)
      requires from <= |data| && |done| % 64 == 0 && abcd == Blocks(process, START, done) && buf.Length == 64
      modifies this`abcd, buf
      ensures var all := done + data[from..];
        abcd == Blocks(process, START, all) && buf[..|all| % 64] == Remainder(all)
    {
      var p := ProcessFull(data, from, done);
      if p < |data| {
        Copy(0, data, p, |data| - p);
      }
      ghost var blocks := done + data[from..p];
      assert done + data[from..] == blocks + data[p..];
      BlocksAndRest(process, START, blocks, data[p..]);
    }

    // The part of md5_append after the length has been updated.
    method Take(data: seq<Byte>, offset: nat, ghost before: seq<Byte>)
      requires data != [] && offset == |before| % 64 && buf.Length == 64
      requires abcd == Blocks(process, START, before) && buf[..offset] == Remainder(before)
      modifies this`abcd, buf
      ensures abcd == Blocks(process, START, before + data)
      ensures buf[..|before + data| % 64] == Remainder(before + data)
    {
      hide Blocks, Remainder;
      var p := 0;
      if offset > 0 {
        var copy := if offset + |data| > 64 then 64 - offset else |data|;
        Copy(offset, data, 0, copy);
        if offset + copy < 64 {
          ShortOfBlock(process, before, data);
          assert data[0..copy] == data;
          return;
        }
        p := copy;
        BlockCompleted(process, before, data[0..copy]);
        assert buf[..] == buf[..64] == Remainder(before) + data[0..copy];
        abcd := process(abcd, buf[..]);
      } else {
        assert before + data[0..0] == before;
      }
      assert before + data[0..p] + data[p..] == before + data;
      Absorb(data, p, before + data[0..p]);
    }

    /** Appends nbytes bytes; a count that is not positive changes nothing. The offset and
        the count are added in a signed 32-bit int. */
    method Append(data: seq<Byte>, nbytes: int)
      requires Valid() && -0x8000_0000 <= nbytes <= |data|
      requires |message| % 64 + nbytes < 0x8000_0000
      modifies this, buf
      ensures Valid() && message == old(message) + if nbytes > 0 then data[..nbytes] else []
      ensures nbytes <= 0 ==> Current() == old(Current())
    {
      hide Blocks, Remainder;
      var offset := count0 / 8 % 64;
      if nbytes <= 0 {
        return;
      }
      OffsetFromCount(count0, count1, |message|);
      AddLength(nbytes, |message|);
      Take(data[..nbytes], offset, message);
      message := message + data[..nbytes];
    }

    /** However a message is cut into pieces, appending them one after the other gives the
        state of the whole message. */
    method AppendAll(chunks: seq<seq<Byte>>)
      requires Valid() && forall i :: 0 <= i < |chunks| ==> |chunks[i]| <= 0x7fff_ffc0
      modifies this, buf
      ensures Valid() && message == old(message) + Concat(chunks)
    {
      hide Represents;
      for i := 0 to |chunks|
        invariant Valid() && message == old(message) + Concat(chunks[..i])
      {
        Append(chunks[i], |chunks[i]|);
        ConcatSnoc(chunks, i);
        assert chunks[i][..|chunks[i]|] == chunks[i];
      }
      assert chunks[..|chunks|] == chunks;
    }

    // The eight bytes of the length, before padding.
    method LengthBytes() returns (data: seq<Byte>)
      requires Valid()
      ensures data == LittleEndian(8 * |message| % TWO64, 8)
    {
      hide LittleEndian, Blocks, Remainder;
      data := WordBytes(count0);
      var high := WordBytes(count1);
      assert Power(4) == TWO32;
      LittleEndianSplit(count0, count1, 4, 4);
      data := data + high;
    }

    /** The digest is that of the padded message of RFC 1321, all of which is consumed in
        whole blocks. */
    method Finish() returns (digest: seq<Byte>)
      requires Valid()
      modifies this, buf
      ensures Valid() && digest == Digest(process, old(message)) && |digest| == 16
      ensures message == Padded(old(message)) && count0 / 8 % 64 == 0
    {
      hide Blocks, Remainder, LittleEndian;
      ghost var length := |message|;
      OffsetFromCount(count0, count1, length);
      PaddedLength(message);
      var data := LengthBytes();
      LittleEndianLength(8 * length % TWO64, 8);
      var n := (55 - count0 / 8) % 64 + 1;
      PadPrefix(length, count0 / 8);
      Append(PAD, n);
      assert data[..8] == data;
      Append(data, 8);
      OffsetFromCount(count0, count1, |message|);
      digest := WordsBytes(abcd);
    }
  }

  // The four bytes of a word, by shifting and cutting off.
  method WordBytes(w: Word) returns (r: seq<Byte>)
    ensures r == LittleEndian(w, 4)
  {
    hide LittleEndian;
    r := [];
    var i, x: nat := 0, w;
    while i < 4
      invariant 0 <= i <= 4 && r + LittleEndian(x, 4 - i) == LittleEndian(w, 4)
    {
      LowByte(x, 4 - i);
      r := r + [x % 0x100];
      x := x / 0x100;
      i := i + 1;
    }
    LittleEndianLength(x, 0);
  }

  method WordsBytes(h: Words) returns (r: seq<Byte>)
    ensures r == Encode(h) && |r| == 16
  {
    var a := WordBytes(h.a);
    var b := WordBytes(h.b);
    var c := WordBytes(h.c);
    var d := WordBytes(h.d);
    LittleEndianLength(h.a, 4);
    LittleEndianLength(h.b, 4);
    LittleEndianLength(h.c, 4);
    LittleEndianLength(h.d, 4);
    r := a + b + c + d;
  }

  /** A whole message in pieces, from start to digest. */
  method Md5(process: Compress, chunks: seq<seq<Byte>>) returns (digest: seq<Byte>)
    requires forall i :: 0 <= i < |chunks| ==> |chunks[i]| <= 0x7fff_ffc0
    ensures digest == Digest(process, Concat(chunks))
  {
    var state := new Md5State(process);
    state.AppendAll(chunks);
    assert [] + Concat(chunks) == Concat(chunks);
    digest := state.Finish();
  }
}
