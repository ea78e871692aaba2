/** The number of recent messages: what the server counts, and what a client that listens knows. */
module ImapRecent {
  import opened Options
  import opened ImapMessages
  import opened ImapDelta
  import opened ImapFetch
  import opened ImapSession

  // ----- what is counted -----

  // The positions of the messages that nobody has seen: bit 5 of the flags is not set.
  function RecentOnes(ms: seq<Msg>): set<nat> {
    set i | 0 <= i < |ms| && ms[i].flags & 32 == 0
  }

  lemma SeenBit(flags: bv32)
    ensures Flagged(FLAG_SEEN, flags) <==> flags & 32 != 0
  {
  }

  function Moved(s: set<nat>): set<nat> {
    set i | i in s :: i + 1
  }

  lemma MovedIn(s: set<nat>, y: nat)
    ensures y in Moved(s) <==> y > 0 && y - 1 in s
  {
    if y > 0 && y - 1 in s {
      var i := y - 1;
      assert i in s && y == i + 1;
    }
  }

  lemma {:induction false} MovedSize(s: set<nat>)
    ensures |Moved(s)| == |s|
    decreases |s|
  {
    if x :| x in s {
      MovedSize(s - {x});
      forall y: nat
        ensures y in Moved(s) <==> y in Moved(s - {x}) || y == x + 1
      {
        MovedIn(s, y);
        MovedIn(s - {x}, y);
      }
      assert Moved(s) == Moved(s - {x}) + {x + 1};
    } else {
      assert Moved(s) == {};
    }
  }

  lemma OnesAt(ms: seq<Msg>, i: nat)
    requires ms != []
    ensures i in RecentOnes(ms) <==> if i == 0 then ms[0].flags & 32 == 0 else i - 1 in RecentOnes(ms[1..])
  {
  }

  // The positions in the rest of the list are one further on.
  lemma OnesShift(ms: seq<Msg>)
    requires ms != []
    ensures |RecentOnes(ms)| == |RecentOnes(ms[1..])| + if ms[0].flags & 32 == 0 then 1 else 0
  {
    var rest, recent := RecentOnes(ms[1..]), ms[0].flags & 32 == 0;
    var first: set<nat> := if recent then {0} else {};
    forall i: nat
      ensures i in RecentOnes(ms) <==> if i == 0 then recent else i - 1 in rest
    {
      OnesAt(ms, i);
    }
    hide RecentOnes;
    MovedSize(rest);
    forall i: nat
      ensures i in RecentOnes(ms) <==> i in first + Moved(rest)
    {
      MovedIn(rest, i);
    }
    assert RecentOnes(ms) == first + Moved(rest);
  }

  /** What the server counts are the messages without the seen bit. */
  lemma {:induction false} CountRecentIs(ms: seq<Msg>)
    ensures CountRecent(ms) == |RecentOnes(ms)|
  {
    if ms != [] {
      CountRecentIs(ms[1..]);
      OnesShift(ms);
      SeenBit(ms[0].flags);
    }
  }

  // ----- what the client hears -----

  // The client knows the number of the last RECENT since the mailbox was opened.
  function Heard(told: Option<nat>, ls: seq<Line>): Option<nat>
    decreases |ls|
  {
    if ls == [] then told
    else
      Heard(match ls[0]
        case Recent(n) => Some(n)
        case Opened => None
        case _ => told, ls[1..])
  }

  lemma {:induction false} HeardSum(told: Option<nat>, a: seq<Line>, b: seq<Line>)
    ensures Heard(told, a + b) == Heard(Heard(told, a), b)
    decreases |a|
  {
    if a == [] {
      assert a + b == b;
    } else {
      assert (a + b)[1..] == a[1..] + b;
      var next := match a[0]
        case Recent(n) => Some(n)
        case Opened => None
        case _ => told;
      HeardSum(next, a[1..], b);
    }
  }

  predicate SaysNothing(ls: seq<Line>) {
    forall l :: l in ls ==> !l.Recent? && !l.Opened?
  }

  lemma {:induction false} NothingHeard(told: Option<nat>, ls: seq<Line>)
    requires SaysNothing(ls)
    ensures Heard(told, ls) == told
    decreases |ls|
  {
    if ls != [] {
      assert ls[0] in ls;
      NothingHeard(told, ls[1..]);
    }
  }

  lemma {:induction false} ExpungesSayNothing(was: seq<Msg>, now: seq<Msg>, k: int)
    ensures SaysNothing(Expunges(was, now, k))
    decreases |was|
  {
    if was != [] {
      if now == [] {
        ExpungesSayNothing(was[1..], now, k);
      } else if was[0].uid == now[0].uid {
        ExpungesSayNothing(was[1..], now[1..], k + 1);
      } else {
        ExpungesSayNothing(was[1..], now, k);
      }
    }
  }

  lemma {:induction false} FlagLinesSayNothing(kept: seq<Msg>, now: seq<Msg>, i: nat)
    ensures SaysNothing(FlagLines(kept, now, i))
    decreases |kept| - i
  {
    if i < |kept| && i < |now| {
      FlagLinesSayNothing(kept, now, i + 1);
    }
  }

  /** A refresh tells the number of recent messages exactly when it is another one. */
  lemma DeltaHeard(told: Option<nat>, was: seq<Msg>, now: seq<Msg>)
    ensures Heard(told, DeltaLines(was, now)) ==
      if |RecentOnes(was)| == |RecentOnes(now)| then told else Some(|RecentOnes(now)|)
  {
    hide Expunges, FlagLines, Survivors, SaysNothing, CountRecent, RecentOnes;
    var a, b := Expunges(was, now, 1), FlagLines(Survivors(was, now, 1), now, 0);
    var c, d := CountLines(was, now), RecentLines(was, now);
    ExpungesSayNothing(was, now, 1);
    FlagLinesSayNothing(Survivors(was, now, 1), now, 0);
    NothingHeard(told, a);
    NothingHeard(told, b);
    HeardSum(told, a + b + c, d);
    HeardSum(told, a + b, c);
    HeardSum(told, a, b);
    CountRecentIs(was);
    CountRecentIs(now);
    assert c != [] ==> c[1..] == [];
    assert d != [] ==> d[1..] == [];
  }

  lemma SelectHeard(told: Option<nat>, ms: seq<Msg>)
    ensures Heard(told, SelectLines(ms)) == Some(|RecentOnes(ms)|)
  {
    hide CountRecent, RecentOnes;
    var ls := SelectLines(ms);
    CountRecentIs(ms);
    assert ls[1..][1..][1..] == [];
    var n := CountRecent(ms);
    assert Heard(None, ls[1..][1..]) == Heard(Some(n), ls[1..][1..][1..]) == Some(n);
    assert Heard(told, ls) == Heard(None, ls[1..]) == Heard(None, ls[1..][1..]);
  }

  lemma {:induction false} ExpungeLinesSayNothing(ms: seq<Msg>, k: int)
    ensures SaysNothing(ExpungeLines(ms, k))
  {
    if ms != [] {
      ExpungeLinesSayNothing(ms[1..], if Deleted(ms[0]) then k else k + 1);
    }
  }

  lemma {:induction false} WalkSaysNothing(w: Walk, ms: seq<Msg>, readOnly: bool)
    ensures SaysNothing(WalkOut(w, ms, readOnly))
  {
    if ms != [] {
      WalkSaysNothing(w, ms[..|ms| - 1], readOnly);
    }
  }

  // ----- EXPUNGE does not tell -----

  lemma {:induction false} UndeletedRecent(ms: seq<Msg>, k: int)
    ensures CountRecent(Undeleted(ms, k)) <= CountRecent(ms)
    ensures CountRecent(Undeleted(ms, k)) == CountRecent(ms) <==>
      forall i :: 0 <= i < |ms| && ms[i].flags & 8 != 0 ==> ms[i].flags & 32 != 0
  {
    if ms != [] {
      hide Deleted, Flagged;
      var rest, j := ms[1..], if Deleted(ms[0]) then k else k + 1;
      UndeletedRecent(rest, j);
      SeenBit(ms[0].flags);
      DeletedBit(ms[0]);
      if !Deleted(ms[0]) {
        assert Undeleted(ms, k)[1..] == Undeleted(rest, j);
      }
      AllOrFirst(ms);
    }
  }

  predicate Harmless(m: Msg) {
    m.flags & 8 != 0 ==> m.flags & 32 != 0
  }

  lemma AllOrFirst(ms: seq<Msg>)
    requires ms != []
    ensures (forall i :: 0 <= i < |ms| && ms[i].flags & 8 != 0 ==> ms[i].flags & 32 != 0) <==>
      Harmless(ms[0]) && forall i :: 0 <= i < |ms[1..]| && ms[1..][i].flags & 8 != 0 ==> ms[1..][i].flags & 32 != 0
  {
    assert forall i :: 0 < i < |ms| ==> ms[i] == ms[1..][i - 1];
  }

  lemma DeletedBit(m: Msg)
    ensures Deleted(m) <==> m.flags & 8 != 0
  {
  }

  /** EXPUNGE prints no RECENT, so a client that knew the number goes on knowing it exactly if
      none of the messages removed was recent. */
  lemma ExpungeHeardIff(ms: seq<Msg>)
    ensures Heard(Some(|RecentOnes(ms)|), ExpungeLines(ms, 1)) == Some(|RecentOnes(Undeleted(ms, 1))|) <==>
      forall i :: 0 <= i < |ms| && ms[i].flags & 8 != 0 ==> ms[i].flags & 32 != 0
  {
    hide RecentOnes, CountRecent, Undeleted, ExpungeLines, SaysNothing;
    ExpungeLinesSayNothing(ms, 1);
    NothingHeard(Some(|RecentOnes(ms)|), ExpungeLines(ms, 1));
    CountRecentIs(ms);
    CountRecentIs(Undeleted(ms, 1));
    UndeletedRecent(ms, 1);
  }

  // ----- whole runs -----

  // A command that cannot change which messages of the list are recent without saying so.
  predicate Quiet(c: Command) {
    && !c.ExpungeBox?
    && !(c.WalkBox? && c.walk.StoreWalk? && (c.walk.op == Replace || RecentFlag in c.walk.names))
  }

  // The client has the number of recent messages of the open mailbox.
  predicate Knows(told: Option<nat>, s: Session) {
    s.phase == InMailbox ==> told == Some(|RecentOnes(s.msgs)|)
  }

  lemma RefreshKnows(told: Option<nat>, s: Session, gen: int, list: Db)
    requires Knows(told, s)
    ensures Knows(Heard(told, Refresh(s, gen, list).1), Refresh(s, gen, list).0)
  {
    hide DeltaLines, FetchList, RecentOnes;
    if s.phase == InMailbox && gen != s.generation {
      DeltaHeard(told, s.msgs, FetchList(list, s.selected, s.limit));
    }
  }

  lemma {:induction false} IdleKnows(told: Option<nat>, s: Session, polls: seq<Env>)
    requires Knows(told, s)
    ensures Knows(Heard(told, Idle(s, polls).1), Idle(s, polls).0)
    decreases |polls|
  {
    hide Refresh, Knows;
    if polls != [] {
      var (s1, l1) := Refresh(s, polls[0].gen1, polls[0].list1);
      RefreshKnows(told, s, polls[0].gen1, polls[0].list1);
      IdleKnows(Heard(told, l1), s1, polls[1..]);
      HeardSum(told, l1, Idle(s1, polls[1..]).1);
    }
  }

  lemma RecentBit(flags: bv32)
    ensures IsOn(RecentFlag, flags) <==> flags & 32 == 0
  {
  }

  lemma ReadKeepsRecent(flags: bv32)
    ensures AsRead(flags) & 32 == flags & 32
  {
  }

  lemma WalkKeepsRecent(w: Walk, m: Msg, readOnly: bool)
    requires Quiet(WalkBox(w))
    ensures WalkMsg(w, m, readOnly).flags & 32 == 0 <==> m.flags & 32 == 0
  {
    hide Treats, Reads, AsRead, IsOn, FlickAll;
    ReadKeepsRecent(m.flags);
    if w.StoreWalk? {
      FlickMany(w.op == Add, w.names, m.flags, RecentFlag);
      RecentBit(StoredFlags(w.op, w.names, m.flags));
      RecentBit(m.flags);
    }
  }

  lemma WalkSameOnes(w: Walk, ms: seq<Msg>, readOnly: bool)
    requires Quiet(WalkBox(w))
    ensures RecentOnes(WalkAll(w, ms, readOnly)) == RecentOnes(ms)
  {
    hide WalkMsg, WalkAll;
    forall i | 0 <= i < |ms|
      ensures WalkAll(w, ms, readOnly)[i].flags & 32 == 0 <==> ms[i].flags & 32 == 0
    {
      WalkAllAt(w, ms, readOnly, i);
      WalkKeepsRecent(w, ms[i], readOnly);
    }
  }

  lemma DispatchKnows(told: Option<nat>, s: Session, c: Command, e: Env)
    requires Knows(told, s) && Quiet(c)
    ensures Knows(Heard(told, Dispatch(s, c, e).1), Dispatch(s, c, e).0)
  {
    hide RecentOnes, FetchList, SelectLines, WalkAll, WalkOut, Idle, SaysNothing;
    match c {
      case SelectBox(folder, examine) =>
        if folder.Some? {
          SelectHeard(told, FetchList(e.list2, folder.value, s.limit));
        }
      case WalkBox(w) =>
        WalkSaysNothing(w, s.msgs, s.readOnly);
        NothingHeard(told, WalkOut(w, s.msgs, s.readOnly));
        WalkSameOnes(w, s.msgs, s.readOnly);
      case IdleWait(polls) => IdleKnows(told, s, polls);
      case _ =>
    }
  }

  lemma StepKnows(told: Option<nat>, s: Session, c: Command, e: Env)
    requires Knows(told, s) && Quiet(c)
    ensures Knows(Heard(told, Step(s, c, e).1), Step(s, c, e).0)
  {
    hide Refresh, Dispatch, Knows;
    RefreshKnows(told, s, e.gen1, e.list1);
    var (s1, l1) := if s.userId > 0 && !SkipsRefresh(c) then Refresh(s, e.gen1, e.list1) else (s, []);
    DispatchKnows(Heard(told, l1), s1, c, e);
    HeardSum(told, l1, Dispatch(s1, c, e).1);
  }

  /** Over every run without EXPUNGE, and without a STORE that sets or clears the recent flag, the
      last RECENT is the number of messages of the server's list that are recent. */
  lemma {:induction false} RunKnows(told: Option<nat>, s: Session, script: seq<(Command, Env)>)
    requires Knows(told, s) && forall i :: 0 <= i < |script| ==> Quiet(script[i].0)
    ensures Knows(Heard(told, Run(s, script).1), Run(s, script).0)
    decreases |script|
  {
    hide Step, Knows, Quiet;
    if script != [] {
      var (s1, l1) := Step(s, script[0].0, script[0].1);
      StepKnows(told, s, script[0].0, script[0].1);
      RunKnows(Heard(told, l1), s1, script[1..]);
      HeardSum(told, l1, Run(s1, script[1..]).1);
    }
  }
}
