/** ReportDelta: bring a client from the old message list to the new one. */
module ImapDelta {
  import opened Options
  import opened ImapMessages

  // The old messages that are still in place when the new list is matched from the
  // front; they carry their final sequence numbers, starting at k.
  function Survivors(was: seq<Msg>, now: seq<Msg>, k: int): seq<Msg> {
    if was == [] || now == [] then []
    else if was[0].uid == now[0].uid then
      [was[0].(seqId := k)] + Survivors(was[1..], now[1..], k + 1)
    else Survivors(was[1..], now, k)
  }

  // The old messages reported as expunged.
  function Gone(was: seq<Msg>, now: seq<Msg>): seq<Msg> {
    if was == [] then []
    else if now == [] then was
    else if was[0].uid == now[0].uid then Gone(was[1..], now[1..])
    else [was[0]] + Gone(was[1..], now)
  }

  // The EXPUNGE lines; k is the number of the first old message at this point.
  function Expunges(was: seq<Msg>, now: seq<Msg>, k: int): seq<Line> {
    if was == [] then []
    else if now == [] then [Expunge(k)] + Expunges(was[1..], now, k)
    else if was[0].uid == now[0].uid then Expunges(was[1..], now[1..], k + 1)
    else [Expunge(k)] + Expunges(was[1..], now, k)
  }

  function FlagLine(a: Msg, b: Msg, k: int): seq<Line> {
    if a.flags != b.flags then [Fetch(k, None, Some(Shown(b.flags)))] else []
  }

  function FlagLines(kept: seq<Msg>, now: seq<Msg>, i: nat): seq<Line>
    decreases |kept| - i
  {
    if i < |kept| && i < |now| then FlagLine(kept[i], now[i], i + 1) + FlagLines(kept, now, i + 1)
    else []
  }

  function CountLines(was: seq<Msg>, now: seq<Msg>): seq<Line> {
    if |now| != |was| || Expunges(was, now, 1) != [] then [Exists(|now|)] else []
  }

  function RecentLines(was: seq<Msg>, now: seq<Msg>): seq<Line> {
    if CountRecent(now) != CountRecent(was) then [Recent(CountRecent(now))] else []
  }

  function DeltaLines(was: seq<Msg>, now: seq<Msg>): seq<Line> {
    Expunges(was, now, 1) + FlagLines(Survivors(was, now, 1), now, 0)
    + CountLines(was, now) + RecentLines(was, now)
  }

  // ----- what the lines do to the client -----

  // The positions of v from i on are those of ms.
  predicate AgreesFrom(v: View, i: nat, ms: seq<Msg>) {
    |v| == i + |ms| && forall j :: i <= j < |v| ==> EntryAgrees(v[j], ms[j - i])
  }

  // w has the first i positions of v and knows of the others if v did.
  predicate Continues(v: View, i: nat, w: View) {
    i <= |v| && i <= |w| && v[..i] == w[..i] && (AllInformed(v) ==> AllInformed(w))
  }

  lemma ErasedAgrees(v: View, i: nat, ms: seq<Msg>)
    requires AgreesFrom(v, i, ms) && ms != []
    ensures var u := v[..i] + v[i + 1..];
      Apply(v, Expunge(i + 1)) == Some(u) && AgreesFrom(u, i, ms[1..]) && Continues(v, i, u)
  {
    hide EntryAgrees;
    var u := v[..i] + v[i + 1..];
    assert forall j :: i <= j < |u| ==> u[j] == v[j + 1];
    assert forall j :: 0 <= j < |u| ==> u[j] == v[if j < i then j else j + 1];
  }

  lemma KeptAgrees(w: View, i: nat, s: seq<Msg>)
    requires s != [] && AgreesFrom(w, i + 1, s[1..]) && EntryAgrees(w[i], s[0])
    ensures AgreesFrom(w, i, s)
  {
    hide EntryAgrees;
    forall j | i < j < |w|
      ensures EntryAgrees(w[j], s[j - i])
    {
      assert s[j - i] == s[1..][j - (i + 1)];
    }
  }

  // The messages from position i on are was; those before it are not touched.
  lemma {:induction false} ExpungeReplay(v: View, i: nat, was: seq<Msg>, now: seq<Msg>) returns (w: View)
    requires AgreesFrom(v, i, was)
    ensures Replay(v, Expunges(was, now, i + 1)) == Some(w)
    ensures AgreesFrom(w, i, Survivors(was, now, i + 1)) && Continues(v, i, w)
    decreases |was|
  {
    hide Apply, EntryAgrees, AllInformed;
    if was == [] {
      w := v;
    } else if now != [] && was[0].uid == now[0].uid {
      assert EntryAgrees(v[i], was[0]);
      w := ExpungeReplay(v, i + 1, was[1..], now[1..]);
      assert w[i] == w[..i + 1][i] == v[..i + 1][i];
      SameButNumber(v[i], was[0], i + 1);
      KeptAgrees(w, i, Survivors(was, now, i + 1));
      assert w[..i] == w[..i + 1][..i] && v[..i] == v[..i + 1][..i];
    } else {
      var u := v[..i] + v[i + 1..];
      ErasedAgrees(v, i, was);
      assert Expunges(was, now, i + 1) == [Expunge(i + 1)] + Expunges(was[1..], now, i + 1);
      w := ExpungeReplay(u, i, was[1..], now);
    }
  }

  lemma SameButNumber(e: Entry, m: Msg, k: int)
    ensures EntryAgrees(e, m.(seqId := k)) <==> EntryAgrees(e, m)
  {
  }

  // Agreement with the front of a list, entry by entry.
  predicate AgreesFront(w: View, now: seq<Msg>) {
    |w| <= |now| && forall i :: 0 <= i < |w| ==> EntryAgrees(w[i], now[i])
  }

  // One survivor: its FETCH line, if any, makes its position right and no other changes.
  lemma FlagLineReplay(v: View, i: nat, a: Msg, b: Msg) returns (e: Entry)
    requires i < |v| && EntryAgrees(v[i], a) && a.uid == b.uid
    ensures Replay(v, FlagLine(a, b, i + 1)) == Some(v[i := e])
    ensures EntryAgrees(e, b) && (Informed(v[i]) ==> Informed(e))
  {
    e := if a.flags != b.flags then Entry(v[i].uid, Some(Shown(b.flags))) else v[i];
    var ls := FlagLine(a, b, i + 1);
    if ls != [] {
      assert ls[1..] == [];
    } else {
      assert v[i := e] == v;
    }
  }

  lemma {:induction false} FlagReplay(v: View, kept: seq<Msg>, now: seq<Msg>, i: nat)
    returns (w: View)
    requires i <= |v| == |kept| <= |now|
    requires forall j :: 0 <= j < |v| ==> EntryAgrees(v[j], if j < i then now[j] else kept[j])
    requires forall j :: 0 <= j < |kept| ==> kept[j].uid == now[j].uid
    ensures Replay(v, FlagLines(kept, now, i)) == Some(w)
    ensures |w| == |v| && AgreesFront(w, now)
    ensures AllInformed(v) ==> AllInformed(w)
    decreases |kept| - i
  {
    if i == |kept| {
      w := v;
    } else {
      hide FlagLine, Replay, Informed, EntryAgrees;
      var e := FlagLineReplay(v, i, kept[i], now[i]);
      ReplayConcat(v, FlagLine(kept[i], now[i], i + 1), FlagLines(kept, now, i + 1));
      w := FlagReplay(v[i := e], kept, now, i + 1);
    }
  }

  lemma {:induction false} SurvivorsMatch(was: seq<Msg>, now: seq<Msg>, k: int)
    ensures var s := Survivors(was, now, k);
      && |s| <= |now| && |s| <= |was|
      && (forall i :: 0 <= i < |s| ==> s[i].uid == now[i].uid && s[i].seqId == k + i)
      && |Expunges(was, now, k)| == |was| - |s| == |Gone(was, now)|
    decreases |was|
  {
    if was == [] {
    } else if now == [] {
      SurvivorsMatch(was[1..], now, k);
    } else if was[0].uid == now[0].uid {
      SurvivorsMatch(was[1..], now[1..], k + 1);
      var s := Survivors(was, now, k);
      assert forall i :: 0 < i < |s| ==> s[i] == s[1..][i - 1];
    } else {
      SurvivorsMatch(was[1..], now, k);
    }
  }

  // The two counting lines: the view grows by positions nothing is known about.
  lemma CountReplay(x: View, was: seq<Msg>, now: seq<Msg>)
    requires |x| == |Survivors(was, now, 1)|
    ensures |x| <= |now|
    ensures Replay(x, CountLines(was, now) + RecentLines(was, now))
         == Some(x + seq(|now| - |x|, i => Entry(None, None)))
  {
    SurvivorsMatch(was, now, 1);
    var c, d := CountLines(was, now), RecentLines(was, now);
    var w := x + seq(|now| - |x|, i => Entry(None, None));
    ReplayConcat(x, c, d);
    if c == [] {
      assert w == x;
    } else {
      assert c[1..] == [];
    }
    if d != [] {
      assert d[1..] == [];
    }
  }

  /** Any client in agreement with the old list can replay every line of ReportDelta and
      ends in agreement with the new list; a client that knew all UIDs and flags still
      knows those of every survivor. No assumption is made on how the lists differ. */
  lemma DeltaReplay(v: View, was: seq<Msg>, now: seq<Msg>) returns (w: View)
    requires Agrees(v, was)
    ensures Replay(v, DeltaLines(was, now)) == Some(w)
    ensures Agrees(w, now)
    ensures |Survivors(was, now, 1)| <= |w|
    ensures AllInformed(v) ==> AllInformed(w[..|Survivors(was, now, 1)|])
  {
    hide Survivors, Expunges, FlagLines, CountLines, RecentLines, Replay;
    var s := Survivors(was, now, 1);
    var a, b := Expunges(was, now, 1), FlagLines(s, now, 0);
    var cd := CountLines(was, now) + RecentLines(was, now);
    SurvivorsMatch(was, now, 1);
    var kept := ExpungeReplay(v, 0, was, now);
    assert forall j :: 0 <= j < |s| ==> s[j] == s[j - 0];
    var x := FlagReplay(kept, s, now, 0);
    CountReplay(x, was, now);
    w := x + seq(|now| - |x|, i => Entry(None, None));
    assert DeltaLines(was, now) == a + (b + cd);
    ReplayConcat(v, a, b + cd);
    ReplayConcat(kept, b, cd);
    assert w[..|s|] == x;
    AgreesGrown(x, now);
  }

  lemma AgreesGrown(x: View, now: seq<Msg>)
    requires AgreesFront(x, now)
    ensures Agrees(x + seq(|now| - |x|, i => Entry(None, None)), now)
  {
  }

  lemma {:induction false} FlagLinesComplete(kept: seq<Msg>, now: seq<Msg>, i: nat, j: nat)
    requires i <= j < |kept| <= |now|
    requires kept[j].flags != now[j].flags
    ensures Fetch(j + 1, None, Some(Shown(now[j].flags))) in FlagLines(kept, now, i)
    decreases j - i
  {
    hide Shown;
    if i < j {
      FlagLinesComplete(kept, now, i + 1, j);
    }
  }

  /** Every survivor whose flags changed is reported under its final number. */
  lemma SurvivorFlagsReported(was: seq<Msg>, now: seq<Msg>, i: nat)
    requires i < |Survivors(was, now, 1)|
    ensures i < |now| && Survivors(was, now, 1)[i].uid == now[i].uid
    ensures Survivors(was, now, 1)[i].flags != now[i].flags
      ==> Fetch(i + 1, None, Some(Shown(now[i].flags))) in DeltaLines(was, now)
  {
    SurvivorsMatch(was, now, 1);
    if Survivors(was, now, 1)[i].flags != now[i].flags {
      FlagLinesComplete(Survivors(was, now, 1), now, 0, i);
    }
  }

  // ----- when exactly the right messages are expunged -----

  function Uids(ms: seq<Msg>): set<int> {
    if ms == [] then {} else {ms[0].uid} + Uids(ms[1..])
  }

  predicate Ascending(ms: seq<Msg>) {
    forall i, j :: 0 <= i < j < |ms| ==> ms[i].uid < ms[j].uid
  }

  // Section 2.3.1.1 of RFC 3501 wants new messages to get higher UIDs; what ReportDelta
  // needs is only that none lies below a message that stays.
  predicate AddedAbove(o: set<int>, n: set<int>) {
    forall u, v :: u in n && u !in o && v in o && v in n ==> v < u
  }

  lemma {:induction false} AboveHead(ms: seq<Msg>, b: int)
    requires Ascending(ms) && (ms != [] ==> b < ms[0].uid)
    ensures forall u :: u in Uids(ms) ==> b < u
  {
    if ms != [] {
      AboveHead(ms[1..], b);
    }
  }

  lemma {:induction false} GoneAll(was: seq<Msg>, now: seq<Msg>)
    requires now != [] && now[0].uid !in Uids(was)
    ensures Gone(was, now) == was
  {
    if was != [] {
      GoneAll(was[1..], now);
      assert was == [was[0]] + was[1..];
    }
  }

  lemma {:induction false} GoneFromOld(was: seq<Msg>, now: seq<Msg>)
    ensures Uids(Gone(was, now)) <= Uids(was)
    decreases |was|
  {
    if was != [] && now != [] {
      if was[0].uid == now[0].uid {
        GoneFromOld(was[1..], now[1..]);
      } else {
        GoneFromOld(was[1..], now);
        assert Gone(was, now)[1..] == Gone(was[1..], now);
      }
    }
  }

  // The three ways the smallest UIDs can compare, on the level of UID sets.
  lemma AddedAboveSameHead(h: int, o: set<int>, n: set<int>)
    requires forall u :: u in o || u in n ==> h < u
    ensures AddedAbove({h} + o, {h} + n) <==> AddedAbove(o, n)
    ensures ({h} + o) - ({h} + n) == o - n
  {
  }

  lemma AddedAboveOldHead(h: int, o: set<int>, n: set<int>)
    requires h !in n
    ensures AddedAbove({h} + o, n) <==> AddedAbove(o, n)
  {
  }

  lemma AddedAboveNewHead(o: set<int>, g: int, n: set<int>)
    requires forall u :: u in o || u in n ==> g < u
    ensures AddedAbove(o, {g} + n) <==> o == o - ({g} + n)
  {
    var all := {g} + n;
    assert g in all && g !in o;
    if v :| v in o && v in n {
      assert v in all && v !in o - all;
    } else {
      assert forall v :: v in o ==> v in o - all;
    }
  }

  /** For two lists sorted by UID, the expunged messages are those of the old list that are
      missing from the new one if and only if no added UID lies below a UID that stays. */
  lemma {:induction false} ExpungedExactly(was: seq<Msg>, now: seq<Msg>)
    requires Ascending(was) && Ascending(now)
    ensures Uids(Gone(was, now)) == Uids(was) - Uids(now) <==> AddedAbove(Uids(was), Uids(now))
    decreases |was|
  {
    if was != [] && now != [] {
      var h, g := was[0].uid, now[0].uid;
      var o, n := Uids(was[1..]), Uids(now[1..]);
      AboveHead(was[1..], h);
      AboveHead(now[1..], g);
      if h == g {
        ExpungedExactly(was[1..], now[1..]);
        AddedAboveSameHead(h, o, n);
      } else if h < g {
        AboveHead(now, h);
        ExpungedExactly(was[1..], now);
        AddedAboveOldHead(h, o, Uids(now));
        GoneFromOld(was[1..], now);
        assert Gone(was, now)[1..] == Gone(was[1..], now);
        assert Uids(was) - Uids(now) == {h} + (o - Uids(now));
        SameHead(h, Uids(Gone(was[1..], now)), o - Uids(now));
      } else {
        AboveHead(was, g);
        GoneAll(was, now);
        AddedAboveNewHead(Uids(was), g, n);
      }
    }
  }

  lemma SameHead(h: int, a: set<int>, b: set<int>)
    requires h !in a && h !in b
    ensures {h} + a == {h} + b <==> a == b
  {
    if {h} + a == {h} + b {
      assert a == ({h} + a) - {h};
      assert b == ({h} + b) - {h};
    }
  }

  /** A message moved in with a lower UID than a message that stays: the one that stays is
      expunged and announced again, although it never left. */
  lemma ExpungedTooMuch()
    ensures var a, b := Msg(3, 30, 1, 0, 0), Msg(1, 10, 1, 0, 0);
      && Gone([a], [b, a]) == [a]
      && DeltaLines([a], [b, a]) == [Expunge(1), Exists(2), Recent(2)]
  {
    var a, b := Msg(3, 30, 1, 0, 0), Msg(1, 10, 1, 0, 0);
    assert Gone([a], [b, a]) == [a] + Gone([], [b, a]);
    assert Expunges([a], [b, a], 1) == [Expunge(1)] + Expunges([], [b, a], 1);
    assert [a][1..] == [] && [b, a][1..] == [a];
    assert CountRecent([]) == 0;
    assert CountRecent([a]) == 1;
    assert CountRecent([b, a]) == 2;
    assert Survivors([a], [b, a], 1) == Survivors([], [b, a], 1);
  }

  // ----- the procedure itself -----

  predicate SameButNumbers(a: seq<Msg>, b: seq<Msg>) {
    |a| == |b| && forall i :: 0 <= i < |a| ==> a[i].(seqId := 0) == b[i].(seqId := 0)
  }

  lemma {:induction false} NumbersIgnored(a: seq<Msg>, b: seq<Msg>, now: seq<Msg>, k: int)
    requires SameButNumbers(a, b)
    ensures Survivors(a, now, k) == Survivors(b, now, k)
    ensures Expunges(a, now, k) == Expunges(b, now, k)
    decreases |a|
  {
    if a != [] {
      assert a[0].(seqId := 0) == b[0].(seqId := 0);
      assert a[0].(seqId := k) == b[0].(seqId := k);
      assert SameButNumbers(a[1..], b[1..]);
      if now != [] && a[0].uid == b[0].uid == now[0].uid {
        NumbersIgnored(a[1..], b[1..], now[1..], k + 1);
      } else {
        NumbersIgnored(a[1..], b[1..], now, k);
      }
    }
  }

  // --it->iSequenceID for every message from position i on.
  method DecrementFrom(ms: seq<Msg>, i: nat) returns (r: seq<Msg>)
    requires i <= |ms|
    ensures |r| == |ms| && r[..i] == ms[..i]
    ensures forall j :: i <= j < |ms| ==> r[j] == ms[j].(seqId := ms[j].seqId - 1)
  {
    r := ms;
    for j := i to |ms|
      invariant |r| == |ms|
      invariant forall x :: 0 <= x < i || j <= x < |ms| ==> r[x] == ms[x]
      invariant forall x :: i <= x < j ==> r[x] == ms[x].(seqId := ms[x].seqId - 1)
    {
      r := r[j := r[j].(seqId := r[j].seqId - 1)];
    }
  }

  // Prints the number of the message at position i, renumbers and erases it.
  method EraseAt(ms: seq<Msg>, now: seq<Msg>, i: nat) returns (r: seq<Msg>, line: Line)
    requires i < |ms| && Numbered(ms) && (i < |now| ==> ms[i].uid != now[i].uid) && i <= |now|
    ensures |r| == |ms| - 1 && Numbered(r) && r[..i] == ms[..i]
    ensures [line] + Expunges(r[i..], now[i..], i + 1) == Expunges(ms[i..], now[i..], i + 1)
    ensures i < |now| ==> Survivors(r[i..], now[i..], i + 1) == Survivors(ms[i..], now[i..], i + 1)
  {
    line := Expunge(ms[i].seqId);
    r := DecrementFrom(ms, i);
    r := r[..i] + r[i + 1..];
    assert forall j :: i <= j < |r| ==> r[j].(seqId := 0) == ms[j + 1].(seqId := 0);
    assert forall j :: 0 <= j < i ==> r[j] == ms[..i][j];
    assert SameButNumbers(r[i..], ms[i + 1..]);
    NumbersIgnored(r[i..], ms[i + 1..], now[i..], i + 1);
    assert ms[i..][1..] == ms[i + 1..];
  }

  lemma {:induction false} TailExpunges(ms: seq<Msg>, k: int, i: nat)
    requires i <= |ms|
    ensures Expunges(ms, [], k) == seq(i, j => Expunge(k)) + Expunges(ms[i..], [], k)
  {
    if i > 0 {
      TailExpunges(ms, k, i - 1);
      assert ms[i - 1..][1..] == ms[i..];
      assert seq(i - 1, j => Expunge(k)) + [Expunge(k)] == seq(i, j => Expunge(k));
    }
  }

  // One position matched: the split point moves on by one.
  lemma MatchedStep(ms: seq<Msg>, now: seq<Msg>, i: nat)
    requires i < |ms| && i < |now| && Numbered(ms) && ms[i].uid == now[i].uid
    ensures Expunges(ms[i..], now[i..], i + 1) == Expunges(ms[i + 1..], now[i + 1..], i + 2)
    ensures ms[..i] + Survivors(ms[i..], now[i..], i + 1)
         == ms[..i + 1] + Survivors(ms[i + 1..], now[i + 1..], i + 2)
  {
    assert ms[i..][1..] == ms[i + 1..] && now[i..][1..] == now[i + 1..];
    assert ms[i].(seqId := i + 1) == ms[i];
    assert ms[..i + 1] == ms[..i] + [ms[i]];
  }

  // What is printed so far and what is still to be printed make up the whole.
  ghost predicate Split(was: seq<Msg>, now: seq<Msg>, rest: seq<Msg>, out: seq<Line>, i: nat) {
    && i <= |now| && i <= |rest| && Numbered(rest)
    && out + Expunges(rest[i..], now[i..], i + 1) == Expunges(was, now, 1)
    && rest[..i] + Survivors(rest[i..], now[i..], i + 1) == Survivors(was, now, 1)
  }

  // The inner loop: expunge until the message at position i is the expected one.
  method ExpungeUntil(ghost was: seq<Msg>, now: seq<Msg>, ms: seq<Msg>, lines: seq<Line>, i: nat)
    returns (rest: seq<Msg>, out: seq<Line>)
    requires i < |now| && Split(was, now, ms, lines, i)
    ensures Split(was, now, rest, out, i) && |out| - |lines| == |ms| - |rest| >= 0
    ensures i < |rest| ==> rest[i].uid == now[i].uid
  {
    rest, out := ms, lines;
    while i < |rest| && rest[i].uid != now[i].uid
      invariant Split(was, now, rest, out, i) && |out| - |lines| == |ms| - |rest| >= 0
    {
      var line;
      ghost var before := out;
      rest, line := EraseAt(rest, now, i);
      out := out + [line];
      assert out + Expunges(rest[i..], now[i..], i + 1)
          == before + ([line] + Expunges(rest[i..], now[i..], i + 1));
    }
  }

  // The first loop: match the two lists from the front.
  method MatchFront(was: seq<Msg>, now: seq<Msg>)
    returns (rest: seq<Msg>, out: seq<Line>, ghost i: nat)
    requires Numbered(was)
    ensures Split(was, now, rest, out, i) && |out| == |was| - |rest|
    ensures i == |rest| || i == |now|
  {
    rest, out := was, [];
    var at := 0;
    assert was[0..] == was && now[0..] == now;
    while at < |now| && at < |rest|
      invariant Split(was, now, rest, out, at) && |out| == |was| - |rest|
      decreases |now| - at
    {
      rest, out := ExpungeUntil(was, now, rest, out, at);
      if at == |rest| {
        break;
      }
      MatchedStep(rest, now, at);
      at := at + 1;
    }
    i := at;
  }

  // The second loop: everything past the new size goes, always under the same number.
  method CutTail(ms: seq<Msg>, n: nat) returns (rest: seq<Msg>, out: seq<Line>)
    requires Numbered(ms) && n < |ms|
    ensures rest == ms[..n] && out == Expunges(ms[n..], [], n + 1) && out != []
  {
    TailExpunges(ms[n..], n + 1, |ms| - n);
    assert ms[n..][|ms| - n..] == [];
    rest, out := ms, [];
    var seqId := -1;
    while n < |rest|
      invariant n <= |rest| <= |ms| && rest[..n] == ms[..n]
      invariant if |rest| == |ms| then rest == ms && seqId == -1 else seqId == n + 1
      invariant out == seq(|ms| - |rest|, j => Expunge(n + 1))
    {
      if seqId == -1 {
        seqId := rest[n].seqId;
      }
      out := out + [Expunge(seqId)];
      rest := rest[..n] + rest[n + 1..];
    }
  }

  method ExpungeMissing(oldList: seq<Msg>, newList: seq<Msg>)
    returns (rest: seq<Msg>, out: seq<Line>, expunged: bool)
    requires Numbered(oldList)
    ensures rest == Survivors(oldList, newList, 1)
    ensures out == Expunges(oldList, newList, 1)
    ensures expunged <==> out != []
  {
    ghost var i;
    rest, out, i := MatchFront(oldList, newList);
    if |rest| > |newList| {
      var cut;
      assert newList[i..] == [];
      rest, cut := CutTail(rest, |newList|);
      out := out + cut;
    } else {
      assert rest[i..] == [];
    }
    expunged := |out| > 0;
  }

  lemma FlagStep(kept: seq<Msg>, now: seq<Msg>, i: nat, out: seq<Line>)
    requires i < |kept| && i < |now|
    ensures out + FlagLines(kept, now, i) == out + FlagLine(kept[i], now[i], i + 1) + FlagLines(kept, now, i + 1)
  {
    hide FlagLine;
  }

  lemma FlagsEnd(kept: seq<Msg>, now: seq<Msg>)
    ensures FlagLines(kept, now, |kept|) == []
  {
  }

  // The third loop, with the two branches that log an internal error.
  method ReportFlags(kept: seq<Msg>, newList: seq<Msg>) returns (out: seq<Line>, warned: bool)
    requires |kept| <= |newList| && Numbered(newList) && Numbered(kept)
    requires forall i :: 0 <= i < |kept| ==> kept[i].uid == newList[i].uid
    ensures !warned && out == FlagLines(kept, newList, 0)
  {
    hide Shown, FlagLines;
    out, warned := [], false;
    var i := 0;
    while i < |newList| && i < |kept|
      invariant i <= |kept| && !warned
      invariant out + FlagLines(kept, newList, i) == FlagLines(kept, newList, 0)
    {
      FlagStep(kept, newList, i, out);
      if newList[i].uid != kept[i].uid {
        warned := true;
        break;
      }
      if newList[i].seqId != kept[i].seqId {
        warned := true;
        break;
      }
      if newList[i].flags != kept[i].flags {
        out := out + [Fetch(newList[i].seqId, None, Some(Shown(newList[i].flags)))];
      }
      i := i + 1;
    }
    FlagsEnd(kept, newList);
  }

  /** The procedure prints exactly DeltaLines, leaves the survivors in the old list, and
      neither of its two internal-error branches can be taken. */
  method ReportDelta(oldList: seq<Msg>, newList: seq<Msg>)
    returns (rest: seq<Msg>, out: seq<Line>, warned: bool)
    requires Numbered(oldList) && Numbered(newList)
    ensures !warned
    ensures rest == Survivors(oldList, newList, 1)
    ensures out == DeltaLines(oldList, newList)
  {
    var oldSize, oldRecent := |oldList|, CountRecent(oldList);
    var expunged, flagLines;
    rest, out, expunged := ExpungeMissing(oldList, newList);
    SurvivorsMatch(oldList, newList, 1);
    flagLines, warned := ReportFlags(rest, newList);
    out := out + flagLines;
    if |newList| != oldSize || expunged {
      out := out + [Exists(|newList|)];
    }
    var newRecent := CountRecent(newList);
    if newRecent != oldRecent {
      out := out + [Recent(newRecent)];
    }
  }
}
