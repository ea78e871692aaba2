/** What the client can rely on: which commands look at the database, which messages FETCH and
    STORE treat, what the flags mean, and how many messages are recent. */
module ImapOutcome {
  import opened Options
  import opened ImapMessages
  import opened ImapDelta
  import opened ImapFetch
  import opened ImapSession
  import opened ImapFresh
  import opened ImapCommands

  // ----- which commands look at the database first -----

  /** A command that is neither by sequence number, nor IDLE, nor LOGOUT sees the folder as it is
      once the generation has changed: NOOP and SEARCH by UID announce it and do no more. */
  lemma PollingReads(s: Session, c: Command, e: Env)
    requires s.userId > 0 && s.phase == InMailbox && (c.OtherCommand? || (c.SearchBox? && c.byUid))
    ensures var now := if e.gen1 == s.generation then s.msgs else FetchList(e.list1, s.selected, s.limit);
      && Step(s, c, e).0 == s.(generation := e.gen1, msgs := now)
      && Step(s, c, e).1 == if e.gen1 == s.generation then [] else DeltaLines(s.msgs, now)
  {
    hide FetchList, DeltaLines;
    var first := Refresh(s, e.gen1, e.list1).1;
    assert first + [] == first;
  }

  /** Polling keeps the client current: once others have raised the generation, a NOOP leaves a list
      whose UIDs and, but for the seen bit, flags are those of the folder at any later moment with
      that generation at which nobody is between a change and its generation. */
  lemma PollIsCurrent(s: Session, e: Env, mg: Moment, es: seq<Event>, es2: seq<Event>)
    requires s.userId > 0 && s.phase == InMailbox && DbValid(mg.db) && IsPast(s.selected, mg, es)
    requires mg.db.generation != s.generation
    requires var mf := Then(s.selected, mg, es); IsPast(s.selected, mf, [Assign(TableRead(mf.db, s.selected))] + es2)
    requires e.gen1 == mg.db.generation && e.list1 == Then(s.selected, mg, es).db
    ensures var mf := Then(s.selected, mg, es);
      var mt := Then(s.selected, mf, [Assign(TableRead(mf.db, s.selected))] + es2);
      mt.db.generation == e.gen1 && mt.pending == {} ==>
        Current(Step(s, OtherCommand, e).0.msgs, mt.db, s.selected, s.limit)
  {
    hide Current, Happens, DbValid, DeltaLines, FetchList, TableRead, Then, IsPast, Refresh;
    PollingReads(s, OtherCommand, e);
    RefreshedListIsCurrent(s, mg, es, es2);
    RefreshIs(s, e.gen1, e.list1);
  }

  lemma RefreshIs(s: Session, gen: int, list: Db)
    requires s.phase == InMailbox && gen != s.generation
    ensures Refresh(s, gen, list).0 == s.(generation := gen, msgs := FetchList(list, s.selected, s.limit))
  {
  }

  /** EXPUNGE, CLOSE, FETCH and STORE by UID, and SELECT do their work on the list as it is in the
      database by then. */
  lemma WorkReads(s: Session, c: Command, e: Env)
    requires s.userId > 0 && s.phase == InMailbox
    ensures var now := if e.gen1 == s.generation then s.msgs else FetchList(e.list1, s.selected, s.limit);
      match c
      case ExpungeBox => Step(s, c, e).0 == s.(generation := e.gen1, msgs := Undeleted(now, 1))
      case CloseBox => Step(s, c, e).0 == s.(generation := e.gen1, msgs := [], phase := Authenticated, selected := -1)
      case WalkBox(w) => w.byUid ==> Step(s, c, e).0 == s.(generation := e.gen1, msgs := WalkAll(w, now, s.readOnly))
      case SelectBox(folder, examine) =>
        if folder.None? then Step(s, c, e).0 == s.(generation := e.gen1, msgs := now)
        else Step(s, c, e).0 == s.(generation := e.gen2, msgs := FetchList(e.list2, folder.value, s.limit),
          selected := folder.value, readOnly := examine)
      case _ => true
  {
    hide FetchList, DeltaLines, Undeleted, WalkAll, WalkOut, ExpungeLines, SelectLines;
  }

  /** FETCH, STORE and SEARCH by sequence number and LOGOUT do not look: whatever has happened in
      the database, the numbers are those of the list the client knows. */
  lemma NumbersStay(s: Session, c: Command, e: Env)
    requires (c.WalkBox? && !c.walk.byUid) || (c.SearchBox? && !c.byUid) || c.LogoutNow?
    ensures Step(s, c, e).0.generation == s.generation
    ensures Step(s, c, e).0.phase == if c.LogoutNow? then LoggedOut else s.phase
    ensures Step(s, c, e).0.msgs ==
      if s.phase != InMailbox then s.msgs
      else if c.WalkBox? then WalkAll(c.walk, s.msgs, s.readOnly)
      else if c.LogoutNow? then [] else s.msgs
  {
  }

  /** Nobody reads a mailbox before logging in, or outside one; a login succeeds exactly with a
      user id above zero, once. */
  lemma NothingOpen(s: Session, c: Command, e: Env)
    requires s.phase == NonAuthenticated || s.phase == Authenticated
    ensures !c.SelectBox? && !c.LoginOk? && !c.LogoutNow? ==> Step(s, c, e) == (s, [])
    ensures c.LoginOk? && (c.id <= 0 || s.phase == Authenticated) ==> Step(s, c, e) == (s, [])
    ensures c.LoginOk? && c.id > 0 && s.phase == NonAuthenticated ==>
      Step(s, c, e) == (s.(phase := Authenticated, userId := c.id, limit := c.limit, generation := c.generation), [])
    ensures s.phase == NonAuthenticated && c.SelectBox? ==> Step(s, c, e) == (s, [])
  {
    var none: seq<Line> := [];
    assert none + none == none;
    if c.IdleWait? {
      IdleOutside(s, c.polls);
    }
  }

  lemma {:induction false} IdleOutside(s: Session, polls: seq<Env>)
    requires s.phase != InMailbox
    ensures Idle(s, polls) == (s, [])
    decreases |polls|
  {
    var none: seq<Line> := [];
    assert none + none == none;
    if polls != [] {
      IdleOutside(s, polls[1..]);
    }
  }

  // The generation differs from the one read at the poll before.
  predicate Changed(s: Session, polls: seq<Env>, j: nat)
    requires j < |polls|
  {
    polls[j].gen1 != if j == 0 then s.generation else polls[j - 1].gen1
  }

  // What the first poll leaves, and the others start from.
  lemma AfterPoll(s: Session, polls: seq<Env>, k: nat)
    requires s.phase == InMailbox && k + 1 < |polls|
    ensures var s1 := Refresh(s, polls[0].gen1, polls[0].list1).0;
      Changed(s1, polls[1..], k) <==> Changed(s, polls, k + 1)
  {
    hide FetchList, DeltaLines;
  }

  /** IDLE without a change of the generation: nothing is printed and the list stays. */
  lemma {:induction false} IdleSilent(s: Session, polls: seq<Env>)
    requires forall k :: 0 <= k < |polls| ==> !Changed(s, polls, k)
    ensures Idle(s, polls) == (s, [])
    decreases |polls|
  {
    hide FetchList, DeltaLines;
    var none: seq<Line> := [];
    assert none + none == none;
    if polls != [] {
      assert !Changed(s, polls, 0);
      forall k | 0 <= k < |polls| - 1
        ensures !Changed(s, polls[1..], k)
      {
        assert !Changed(s, polls, k + 1);
      }
      IdleSilent(s, polls[1..]);
    }
  }

  /** IDLE: the list is in the end that of the last poll at which the generation had changed. */
  lemma {:induction false} IdleReads(s: Session, polls: seq<Env>, j: nat)
    requires s.phase == InMailbox && j < |polls| && Changed(s, polls, j)
    requires forall k :: j < k < |polls| ==> !Changed(s, polls, k)
    ensures Idle(s, polls).0 == s.(
      generation := polls[|polls| - 1].gen1, msgs := FetchList(polls[j].list1, s.selected, s.limit))
    decreases |polls|
  {
    hide FetchList, DeltaLines;
    var s1 := Refresh(s, polls[0].gen1, polls[0].list1).0;
    forall k | 0 <= k < |polls| - 1
      ensures Changed(s1, polls[1..], k) <==> Changed(s, polls, k + 1)
    {
      AfterPoll(s, polls, k);
    }
    if j == 0 {
      forall k | 0 <= k < |polls| - 1
        ensures !Changed(s1, polls[1..], k)
      {
        assert !Changed(s, polls, k + 1);
      }
      IdleSilent(s1, polls[1..]);
      SameGeneration(s, polls, |polls| - 1);
    } else {
      forall k | j - 1 < k < |polls| - 1
        ensures !Changed(s1, polls[1..], k)
      {
        assert !Changed(s, polls, k + 1);
      }
      IdleReads(s1, polls[1..], j - 1);
    }
  }

  /** IDLE looks at the database at its polls only, not before. */
  lemma IdleLooksAtPolls(s: Session, polls: seq<Env>, e: Env)
    requires s.phase == InMailbox
    ensures Step(s, IdleWait(polls), e) == Idle(s, polls)
  {
    hide Idle;
    var none: seq<Line> := [];
    assert none + Idle(s, polls).1 == Idle(s, polls).1;
  }

  lemma {:induction false} SameGeneration(s: Session, polls: seq<Env>, n: nat)
    requires n < |polls| && forall k :: 0 < k <= n ==> !Changed(s, polls, k)
    ensures polls[n].gen1 == polls[0].gen1
  {
    if n > 0 {
      assert !Changed(s, polls, n);
      SameGeneration(s, polls, n - 1);
    }
  }

  // ----- which messages FETCH and STORE treat -----

  /** STORE writes exactly the messages whose number, or whose UID, lies in one of the ranges, and
      leaves everything else of the list as it is. */
  lemma StoreTreats(s: Session, range: MsgSet, byUid: bool, op: FlagOp, names: seq<FlagName>, silent: bool, e: Env, i: nat)
    requires s.phase == InMailbox && Numbered(s.msgs) && i < |s.msgs|
    ensures var m := s.msgs[i];
      var r := Dispatch(s, WalkBox(StoreWalk(range, byUid, op, names, silent)), e).0;
      && r == s.(msgs := r.msgs) && |r.msgs| == |s.msgs|
      && r.msgs[i] == if exists q :: q in range && q.0 <= (if byUid then m.uid else i + 1) <= q.1
           then m.(flags := StoredFlags(op, names, m.flags)) else m
  {
    hide StoredFlags;
    var w := StoreWalk(range, byUid, op, names, silent);
    WalkAllAt(w, s.msgs, s.readOnly, i);
    InRange(range, if byUid then s.msgs[i].uid else i + 1);
  }

  lemma InRange(range: MsgSet, n: int)
    ensures InSet(range, n) <==> exists q :: q in range && q.0 <= n <= q.1
  {
    if InSet(range, n) {
      var i :| 0 <= i < |range| && range[i].0 <= n <= range[i].1;
      assert range[i] in range;
    }
  }

  /** FETCH changes nothing but the unread bit, bit 0, and that exactly of the messages in the set
      that can be opened, if it does not only peek and the mailbox was not opened by EXAMINE. */
  lemma FetchTreats(s: Session, w: Walk, e: Env, i: nat)
    requires s.phase == InMailbox && Numbered(s.msgs) && i < |s.msgs| && w.FetchWalk?
    ensures var m := s.msgs[i];
      var r := Dispatch(s, WalkBox(w), e).0;
      && r == s.(msgs := r.msgs) && |r.msgs| == |s.msgs|
      && r.msgs[i] == if (exists q :: q in w.range && q.0 <= (if w.byUid then m.uid else i + 1) <= q.1)
           && !(w.body && m.mailId in w.lost) && !w.peek && !s.readOnly
           then m.(flags := AsRead(m.flags)) else m
  {
    hide WalkMsg, InSet, StoredFlags, WalkAll, WalkOut, AsRead;
    WalkAllAt(w, s.msgs, s.readOnly, i);
    InRange(w.range, if w.byUid then s.msgs[i].uid else i + 1);
    FetchOne(w, s.msgs[i], s.readOnly);
  }

  lemma Unread(flags: bv32)
    ensures Flagged(FLAG_UNREAD, flags) <==> flags & 1 == 1
  {
  }

  // Reading takes bit 0 away, and nothing happens to flags without it.
  lemma AsReadIs(flags: bv32)
    ensures AsRead(flags) == flags & 0xffff_fffe
    ensures flags & 1 != 1 ==> AsRead(flags) == flags
  {
  }

  lemma ReadsIs(w: Walk, m: Msg, readOnly: bool)
    ensures Reads(w, m, readOnly) <==> w.FetchWalk? && !w.peek && !readOnly && m.flags & 1 == 1
  {
    hide Flagged;
    Unread(m.flags);
  }

  // One message of FETCH.
  lemma FetchOne(w: Walk, m: Msg, readOnly: bool)
    requires w.FetchWalk?
    ensures WalkMsg(w, m, readOnly) ==
      if Treats(w, m) && !w.peek && !readOnly then m.(flags := AsRead(m.flags)) else m
  {
    hide Treats, AsRead, Reads;
    AsReadIs(m.flags);
    ReadsIs(w, m, readOnly);
  }

  // The lines for one message that is fetched.
  predicate FetchSends(w: Walk, m: Msg, n: int, readOnly: bool, l: Line)
    requires w.FetchWalk?
  {
    || l == Fetch(n, if w.uid then Some(m.uid) else None, if w.flags then Some(Shown(m.flags)) else None)
    || (!w.peek && !readOnly && m.flags & 1 == 1 && l == Fetch(n, None, Some(Shown(AsRead(m.flags)))))
  }

  lemma FetchLines(w: Walk, m: Msg, readOnly: bool, l: Line)
    requires w.FetchWalk?
    ensures l in WalkLines(w, m, readOnly) <==> Treats(w, m) && FetchSends(w, m, m.seqId, readOnly, l)
  {
    hide Treats, Shown, WalkMsg, Reads, AsRead;
    FetchOne(w, m, readOnly);
    ReadsIs(w, m, readOnly);
  }

  lemma {:induction false} LinesFrom(w: Walk, ms: seq<Msg>, readOnly: bool, l: Line)
    ensures l in WalkOut(w, ms, readOnly) <==> exists i :: 0 <= i < |ms| && l in WalkLines(w, ms[i], readOnly)
  {
    hide WalkLines;
    if ms != [] {
      var n := |ms| - 1;
      LinesFrom(w, ms[..n], readOnly, l);
      assert forall i :: 0 <= i < n ==> ms[..n][i] == ms[i];
      if l in WalkOut(w, ms[..n], readOnly) {
        var i :| 0 <= i < n && l in WalkLines(w, ms[..n][i], readOnly);
        assert l in WalkLines(w, ms[i], readOnly);
      }
    }
  }

  // The line for one message that is stored.
  predicate StoreSends(w: Walk, m: Msg, n: int, l: Line)
    requires w.StoreWalk?
  {
    l == if w.silent then SilentStored(n) else Fetch(n, None, Some(Shown(StoredFlags(w.op, w.names, m.flags))))
  }

  lemma StoreLines(w: Walk, m: Msg, readOnly: bool, l: Line)
    requires w.StoreWalk?
    ensures l in WalkLines(w, m, readOnly) <==> Treats(w, m) && StoreSends(w, m, m.seqId, l)
  {
    hide StoredFlags, Shown, InSet;
  }

  /** The answer to STORE: one line with the new flags for each message of the set, and nothing
      else; a silent STORE sends nothing, and the client knows by itself what it has changed. */
  lemma StoreAnswers(s: Session, range: MsgSet, byUid: bool, op: FlagOp, names: seq<FlagName>, silent: bool, e: Env, l: Line)
    requires s.phase == InMailbox && Numbered(s.msgs)
    ensures var w := StoreWalk(range, byUid, op, names, silent);
      l in Dispatch(s, WalkBox(w), e).1 <==>
        exists i :: 0 <= i < |s.msgs|
          && (exists q :: q in range && q.0 <= (if byUid then s.msgs[i].uid else i + 1) <= q.1)
          && StoreSends(w, s.msgs[i], i + 1, l)
  {
    hide InSet, WalkLines, StoreSends;
    var w := StoreWalk(range, byUid, op, names, silent);
    LinesFrom(w, s.msgs, s.readOnly, l);
    forall i | 0 <= i < |s.msgs|
      ensures InSet(range, if byUid then s.msgs[i].uid else i + 1) <==>
        exists q :: q in range && q.0 <= (if byUid then s.msgs[i].uid else i + 1) <= q.1
      ensures l in WalkLines(w, s.msgs[i], s.readOnly) <==> Treats(w, s.msgs[i]) && StoreSends(w, s.msgs[i], i + 1, l)
    {
      InRange(range, if byUid then s.msgs[i].uid else i + 1);
      StoreLines(w, s.msgs[i], s.readOnly, l);
    }
  }

  /** The answer to FETCH: for each message of the set that can be opened one line with what was
      asked for, and a second one with its new flags if it was unread and has been read. */
  lemma FetchAnswers(s: Session, w: Walk, e: Env, l: Line)
    requires s.phase == InMailbox && Numbered(s.msgs) && w.FetchWalk?
    ensures l in Dispatch(s, WalkBox(w), e).1 <==>
      exists i :: 0 <= i < |s.msgs|
        && (exists q :: q in w.range && q.0 <= (if w.byUid then s.msgs[i].uid else i + 1) <= q.1)
        && !(w.body && s.msgs[i].mailId in w.lost) && FetchSends(w, s.msgs[i], i + 1, s.readOnly, l)
  {
    hide InSet, WalkLines, FetchSends;
    LinesFrom(w, s.msgs, s.readOnly, l);
    forall i | 0 <= i < |s.msgs|
      ensures InSet(w.range, if w.byUid then s.msgs[i].uid else i + 1) <==>
        exists q :: q in w.range && q.0 <= (if w.byUid then s.msgs[i].uid else i + 1) <= q.1
      ensures l in WalkLines(w, s.msgs[i], s.readOnly) <==>
        Treats(w, s.msgs[i]) && FetchSends(w, s.msgs[i], i + 1, s.readOnly, l)
    {
      InRange(w.range, if w.byUid then s.msgs[i].uid else i + 1);
      FetchLines(w, s.msgs[i], s.readOnly, l);
    }
  }
}
