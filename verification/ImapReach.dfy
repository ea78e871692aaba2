/** Sessions as they can be reached: what EXPUNGE and STORE do to the database on them, and
    two commands that do not do what RFC 3501 wants. */
module ImapReach {
  import opened Options
  import opened ImapMessages
  import opened ImapDelta
  import opened ImapFetch
  import opened ImapSession
  import opened ImapFresh
  import opened ImapCommands

  // ----- no mail is listed twice -----

  lemma FetchedDistinct(db: Db, folder: int, limit: nat)
    requires DbValid(db)
    ensures DistinctMailIds(FetchList(db, folder, limit))
  {
    hide Fetched, Resolve, RowsOf, FolderView, DistinctIn;
    RowsFacts(db.mails, db.uids, folder);
    FetchedFacts(db.uids, RowsOf(db.mails, db.uids, folder), limit);
    var list := FetchList(db, folder, limit);
    forall i, j | 0 <= i < j < |list|
      ensures list[i].mailId != list[j].mailId
    {
      MessageView(db, folder, limit, i);
      MessageView(db, folder, limit, j);
      assert list[i].uid < list[j].uid;
    }
  }

  // Whether a message of the list shows the mail.
  predicate Shows(ms: seq<Msg>, mailId: int) {
    exists i :: 0 <= i < |ms| && ms[i].mailId == mailId
  }

  lemma ShowsRest(ms: seq<Msg>, mailId: int)
    requires ms != []
    ensures Shows(ms, mailId) <==> ms[0].mailId == mailId || Shows(ms[1..], mailId)
  {
    if Shows(ms, mailId) {
      var i :| 0 <= i < |ms| && ms[i].mailId == mailId;
      if i > 0 {
        assert ms[1..][i - 1].mailId == mailId;
      }
    }
    if Shows(ms[1..], mailId) {
      var i :| 0 <= i < |ms[1..]| && ms[1..][i].mailId == mailId;
      assert ms[i + 1].mailId == mailId;
    }
  }

  // The mail ids that are left are some of those there were.
  lemma {:induction false} UndeletedShows(ms: seq<Msg>, k: int, mailId: int)
    ensures Shows(Undeleted(ms, k), mailId) ==> Shows(ms, mailId)
  {
    hide Shows;
    var left := Undeleted(ms, k);
    if ms != [] {
      ShowsRest(ms, mailId);
      UndeletedShows(ms[1..], if Deleted(ms[0]) then k else k + 1, mailId);
      if !Deleted(ms[0]) {
        ShowsRest(left, mailId);
        assert left[1..] == Undeleted(ms[1..], k + 1);
      }
    }
  }

  lemma DistinctRest(ms: seq<Msg>)
    requires ms != []
    ensures DistinctMailIds(ms) <==> !Shows(ms[1..], ms[0].mailId) && DistinctMailIds(ms[1..])
  {
    var rest := ms[1..];
    if DistinctMailIds(rest) && !Shows(rest, ms[0].mailId) {
      forall i, j | 0 <= i < j < |ms|
        ensures ms[i].mailId != ms[j].mailId
      {
        assert ms[j] == rest[j - 1];
        if i > 0 {
          assert ms[i] == rest[i - 1];
        }
      }
    }
    if DistinctMailIds(ms) {
      forall i, j | 0 <= i < j < |rest|
        ensures rest[i].mailId != rest[j].mailId
      {
        assert ms[i + 1].mailId != ms[j + 1].mailId;
      }
      forall i | 0 <= i < |rest|
        ensures rest[i].mailId != ms[0].mailId
      {
        assert ms[0].mailId != ms[i + 1].mailId;
      }
    }
  }

  lemma {:induction false} UndeletedDistinct(ms: seq<Msg>, k: int)
    requires DistinctMailIds(ms)
    ensures DistinctMailIds(Undeleted(ms, k))
  {
    var left := Undeleted(ms, k);
    if ms != [] {
      hide DistinctMailIds, Shows;
      DistinctRest(ms);
      UndeletedDistinct(ms[1..], if Deleted(ms[0]) then k else k + 1);
      if !Deleted(ms[0]) {
        DistinctRest(left);
        assert left[1..] == Undeleted(ms[1..], k + 1);
        UndeletedShows(ms[1..], k + 1, ms[0].mailId);
      }
    }
  }

  lemma WalkDistinct(w: Walk, ms: seq<Msg>, readOnly: bool)
    requires DistinctMailIds(ms)
    ensures DistinctMailIds(WalkAll(w, ms, readOnly))
  {
    forall i | 0 <= i < |ms|
      ensures WalkAll(w, ms, readOnly)[i].mailId == ms[i].mailId
    {
      WalkAllAt(w, ms, readOnly, i);
    }
  }

  // What a command reads is a database with its keys.
  predicate EnvValid(c: Command, e: Env) {
    && DbValid(e.list1) && DbValid(e.list2)
    && (c.IdleWait? ==> forall i :: 0 <= i < |c.polls| ==> DbValid(c.polls[i].list1))
  }

  lemma RefreshDistinct(s: Session, gen: int, list: Db)
    requires DistinctMailIds(s.msgs) && DbValid(list)
    ensures DistinctMailIds(Refresh(s, gen, list).0.msgs)
  {
    FetchedDistinct(list, s.selected, s.limit);
  }

  lemma {:induction false} IdleDistinct(s: Session, polls: seq<Env>)
    requires DistinctMailIds(s.msgs) && forall i :: 0 <= i < |polls| ==> DbValid(polls[i].list1)
    ensures DistinctMailIds(Idle(s, polls).0.msgs)
    decreases |polls|
  {
    hide Refresh, DbValid;
    if polls != [] {
      RefreshDistinct(s, polls[0].gen1, polls[0].list1);
      IdleDistinct(Refresh(s, polls[0].gen1, polls[0].list1).0, polls[1..]);
    }
  }

  lemma DispatchDistinct(s: Session, c: Command, e: Env)
    requires DistinctMailIds(s.msgs) && EnvValid(c, e)
    ensures DistinctMailIds(Dispatch(s, c, e).0.msgs)
  {
    hide DbValid, FetchList, Undeleted, WalkAll, Idle;
    match c {
      case SelectBox(folder, examine) =>
        if folder.Some? {
          FetchedDistinct(e.list2, folder.value, s.limit);
        }
      case ExpungeBox => UndeletedDistinct(s.msgs, 1);
      case WalkBox(w) => WalkDistinct(w, s.msgs, s.readOnly);
      case IdleWait(polls) => IdleDistinct(s, polls);
      case _ =>
    }
  }

  lemma StepDistinct(s: Session, c: Command, e: Env)
    requires DistinctMailIds(s.msgs) && EnvValid(c, e)
    ensures DistinctMailIds(Step(s, c, e).0.msgs)
  {
    hide Refresh, Dispatch;
    RefreshDistinct(s, e.gen1, e.list1);
    DispatchDistinct(if s.userId > 0 && !SkipsRefresh(c) then Refresh(s, e.gen1, e.list1).0 else s, c, e);
  }

  predicate ScriptValid(script: seq<(Command, Env)>) {
    forall i :: 0 <= i < |script| ==> EnvValid(script[i].0, script[i].1)
  }

  lemma {:induction false} RunDistinct(s: Session, script: seq<(Command, Env)>)
    requires DistinctMailIds(s.msgs) && ScriptValid(script)
    ensures DistinctMailIds(Run(s, script).0.msgs)
    decreases |script|
  {
    hide Step, EnvValid, DistinctMailIds;
    if script != [] {
      assert EnvValid(script[0].0, script[0].1);
      StepDistinct(s, script[0].0, script[0].1);
      RunDistinct(Step(s, script[0].0, script[0].1).0, script[1..]);
    }
  }

  // A session as it begins.
  const FRESH: Session := Session(NonAuthenticated, -1, false, 0, 0, false, 0, [])

  lemma {:induction false} DeletedDistinct(ms: seq<Msg>)
    requires DistinctMailIds(ms)
    ensures DistinctDeleted(ms)
    ensures forall x :: x in DeletedIds(ms) ==> Shows(ms, x)
  {
    if ms != [] {
      hide DistinctMailIds, Shows;
      DistinctRest(ms);
      DeletedDistinct(ms[1..]);
      forall x | x in DeletedIds(ms)
        ensures Shows(ms, x)
      {
        ShowsRest(ms, x);
      }
    }
  }

  /** In every session that can be reached, EXPUNGE frees exactly the sizes of the flagged
      mails whose rows are there. */
  lemma FreedExactly(autoExpunge: bool, script: seq<(Command, Env)>, mails: seq<Mail>)
    requires ScriptValid(script)
    ensures var ms := Run(FRESH.(autoExpunge := autoExpunge), script).0.msgs;
      Purge(ms, mails) == (KeepMails(mails, DeletedIds(ms)), DeletedSize(ms, mails))
  {
    hide Purge, KeepMails, DeletedIds, DeletedSize, Run, ScriptValid;
    RunDistinct(FRESH.(autoExpunge := autoExpunge), script);
    var ms := Run(FRESH.(autoExpunge := autoExpunge), script).0.msgs;
    DeletedDistinct(ms);
    PurgeFacts(ms, mails);
  }

  /** In every session that can be reached, FETCH and STORE leave in the table, for every
      message whose flags they write, the flags of the list, and no other mail changed. */
  lemma WrittenExactly(autoExpunge: bool, script: seq<(Command, Env)>, w: Walk, mails: seq<Mail>, i: nat, j: nat)
    requires ScriptValid(script) && i < |mails|
    ensures var s := Run(FRESH.(autoExpunge := autoExpunge), script).0;
      j < |s.msgs| && mails[i].mailId == s.msgs[j].mailId ==>
        SetAll(mails, WalkMarks(w, s.msgs, s.readOnly))[i] ==
          if Writes(w, s.msgs[j], s.readOnly)
          then mails[i].(flags := WalkAll(w, s.msgs, s.readOnly)[j].flags) else mails[i]
  {
    hide SetAll, WalkMarks, Writes, WalkAll, Run, ScriptValid;
    RunDistinct(FRESH.(autoExpunge := autoExpunge), script);
    var s := Run(FRESH.(autoExpunge := autoExpunge), script).0;
    if j < |s.msgs| && mails[i].mailId == s.msgs[j].mailId {
      WalkWritesThrough(w, s.msgs, s.readOnly, mails, i, j);
    }
  }

  // ----- CLOSE in a mailbox opened by EXAMINE -----

  lemma {:induction false} KeepAllIff(mails: seq<Mail>, gone: set<int>)
    ensures |KeepMails(mails, gone)| <= |mails|
    ensures KeepMails(mails, gone) == mails <==> gone !! AllIds(mails)
  {
    if mails != [] {
      KeepAllIff(mails[1..], gone);
      if mails[0].mailId in gone {
        assert mails[0].mailId in AllIds(mails);
        assert |KeepMails(mails, gone)| < |mails|;
      } else {
        assert mails == [mails[0]] + mails[1..];
        assert KeepMails(mails, gone)[1..] == KeepMails(mails[1..], gone);
      }
    }
  }

  /** CLOSE leaves the mails alone exactly if none of them is flagged deleted in the list; it
      does not matter whether the mailbox was opened by EXAMINE. */
  lemma CloseDeletesIff(s: Session, db: Db, others: Others)
    requires s.phase == InMailbox
    ensures DispatchDb(s, CloseBox, db, others).mails == db.mails <==> DeletedIds(s.msgs) !! AllIds(db.mails)
  {
    hide Purge, KeepMails, DeletedIds, AllIds, Charge, Undeleted;
    PurgeFacts(s.msgs, db.mails);
    KeepAllIff(db.mails, DeletedIds(s.msgs));
  }

  // One mail in the folder, one command after the other.
  lemma ExamineOpens(e: Env)
    requires e.list2 == Arriving(true, 5)
    ensures var s := Dispatch(FRESH.(phase := Authenticated, userId := 1), SelectBox(Some(0), true), e).0;
      s.phase == InMailbox && s.readOnly && s.msgs == [Msg(1, 7, 1, 0, 10)]
  {
    var t := Table(map[7 := 1], 2);
    var r := Row(7, 0, 10, Some(1));
    assert RowsOf([Mail(0, 7, 0, 10)], t, 0) == [r] + RowsOf([], t, 0) == [r] + [];
    ResolveStep(t, r, [], Msg(1, 7, 0, 0, 10));
    SortAscending([Msg(1, 7, 0, 0, 10)]);
    assert [r] + [] == [r];
    assert Resolve(t, []) == (t, []);
    assert [Msg(1, 7, 0, 0, 10)] + [] == [Msg(1, 7, 0, 0, 10)];
  }

  lemma StoreFlags(s: Session, e: Env)
    requires s.phase == InMailbox && s.msgs == [Msg(1, 7, 1, 0, 10)]
    ensures var c := WalkBox(StoreWalk([(1, 1)], false, Add, [DeletedFlag], false));
      Dispatch(s, c, e).0 == s.(msgs := [Msg(1, 7, 1, FLAG_DELETED, 10)])
  {
    var w := StoreWalk([(1, 1)], false, Add, [DeletedFlag], false);
    assert [DeletedFlag][1..] == [];
    assert InSet(w.range, 1) by {
      assert w.range[0].0 <= 1 <= w.range[0].1;
    }
    assert WalkMsg(w, s.msgs[0], s.readOnly) == Msg(1, 7, 1, FLAG_DELETED, 10);
    assert s.msgs[..0] == [];
    assert WalkAll(w, s.msgs, s.readOnly) == [] + [Msg(1, 7, 1, FLAG_DELETED, 10)];
  }

  /** EXAMINE, STORE of the deleted flag and CLOSE delete the only mail of a folder, although
      section 6.4.2 of RFC 3501 wants CLOSE to remove nothing from a mailbox that was opened
      read-only. */
  lemma ExamineCloseDeletes(others: Others, e: Env)
    requires e.list2 == Arriving(true, 5)
    ensures var s1 := Dispatch(FRESH.(phase := Authenticated, userId := 1), SelectBox(Some(0), true), e).0;
      var s2 := Dispatch(s1, WalkBox(StoreWalk([(1, 1)], false, Add, [DeletedFlag], false)), e).0;
      && s2.readOnly
      && forall db: Db :: db.mails == [Mail(0, 7, FLAG_DELETED, 10)] ==> DispatchDb(s2, CloseBox, db, others).mails == []
  {
    hide Dispatch;
    ExamineOpens(e);
    var s1 := Dispatch(FRESH.(phase := Authenticated, userId := 1), SelectBox(Some(0), true), e).0;
    StoreFlags(s1, e);
    var s2 := Dispatch(s1, WalkBox(StoreWalk([(1, 1)], false, Add, [DeletedFlag], false)), e).0;
    var m := Msg(1, 7, 1, FLAG_DELETED, 10);
    assert Deleted(m);
    assert s2.msgs[1..] == [];
    forall db: Db | db.mails == [Mail(0, 7, FLAG_DELETED, 10)]
      ensures DispatchDb(s2, CloseBox, db, others).mails == []
    {
      PurgeFacts(s2.msgs, db.mails);
      assert DeletedIds(s2.msgs) == {7} + DeletedIds([]);
      assert db.mails[1..] == [];
    }
  }

  // ----- SELECT of a folder that does not exist -----

  /** After a SELECT or EXAMINE that fails a mailbox is open exactly if one was open before,
      and it is the same one. */
  lemma FailedSelectKeepsOpen(s: Session, examine: bool, e: Env)
    ensures var s' := Step(s, SelectBox(None, examine), e).0;
      (s'.phase == InMailbox <==> s.phase == InMailbox) && s'.selected == s.selected && s'.readOnly == s.readOnly
  {
  }
}
