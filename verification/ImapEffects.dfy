/** What the flags stand for, and what a command leaves in the database. */
module ImapEffects {
  import opened Options
  import opened ImapMessages
  import opened ImapDelta
  import opened ImapFetch
  import opened ImapSession
  import opened ImapFresh
  import opened ImapCommands
  import opened ImapOutcome
  import opened ImapReach

  // ----- the flags -----

  /** Which bits the flag names stand for; seen and recent are on when their bit is not set. */
  lemma FlagBits(flags: bv32)
    ensures IsOn(SeenFlag, flags) <==> flags & 1 == 0
    ensures IsOn(AnsweredFlag, flags) <==> flags & 2 != 0
    ensures IsOn(DeletedFlag, flags) <==> flags & 8 != 0
    ensures IsOn(FlaggedFlag, flags) <==> flags & 16 != 0
    ensures IsOn(RecentFlag, flags) <==> flags & 32 == 0
    ensures IsOn(DraftFlag, flags) <==> flags & 1024 != 0
  {
    hide IsOn;
    SeenBit(flags);
    AnsweredBit(flags);
    DeletedBit(flags);
    FlaggedBit(flags);
    RecentBit(flags);
    DraftBit(flags);
  }

  lemma SeenBit(flags: bv32)
    ensures IsOn(SeenFlag, flags) <==> flags & 1 == 0
  {
  }

  lemma AnsweredBit(flags: bv32)
    ensures IsOn(AnsweredFlag, flags) <==> flags & 2 != 0
  {
  }

  lemma DeletedBit(flags: bv32)
    ensures IsOn(DeletedFlag, flags) <==> flags & 8 != 0
  {
  }

  lemma FlaggedBit(flags: bv32)
    ensures IsOn(FlaggedFlag, flags) <==> flags & 16 != 0
  {
  }

  lemma RecentBit(flags: bv32)
    ensures IsOn(RecentFlag, flags) <==> flags & 32 == 0
  {
  }

  lemma DraftBit(flags: bv32)
    ensures IsOn(DraftFlag, flags) <==> flags & 1024 != 0
  {
  }

  lemma DeletedIsOn(m: Msg)
    ensures Deleted(m) <==> m.flags & 8 != 0
  {
  }

  lemma SixBits(a: bv32, b: bv32)
    ensures Shown(a) == Shown(b) <==>
      a & 1 == b & 1 && a & 2 == b & 2 && a & 8 == b & 8 && a & 16 == b & 16 && a & 32 == b & 32 && a & 1024 == b & 1024
  {
  }

  lemma SameBit(a: bv32, b: bv32)
    ensures (a & 1 == b & 1) <==> (a & 1 == 0 <==> b & 1 == 0)
    ensures (a & 2 == b & 2) <==> (a & 2 == 0 <==> b & 2 == 0)
    ensures (a & 8 == b & 8) <==> (a & 8 == 0 <==> b & 8 == 0)
    ensures (a & 16 == b & 16) <==> (a & 16 == 0 <==> b & 16 == 0)
    ensures (a & 32 == b & 32) <==> (a & 32 == 0 <==> b & 32 == 0)
    ensures (a & 1024 == b & 1024) <==> (a & 1024 == 0 <==> b & 1024 == 0)
  {
  }

  /** A FETCH shows exactly the six flags that a client can name. */
  lemma ShownIff(a: bv32, b: bv32)
    ensures Shown(a) == Shown(b) <==> forall name :: name != UnknownFlag ==> (IsOn(name, a) <==> IsOn(name, b))
  {
    hide IsOn, Shown;
    FlagBits(a);
    FlagBits(b);
    SixBits(a, b);
    SameBit(a, b);
    if forall name :: name != UnknownFlag ==> (IsOn(name, a) <==> IsOn(name, b)) {
      assert IsOn(SeenFlag, a) <==> IsOn(SeenFlag, b);
      assert IsOn(AnsweredFlag, a) <==> IsOn(AnsweredFlag, b);
      assert IsOn(DeletedFlag, a) <==> IsOn(DeletedFlag, b);
      assert IsOn(FlaggedFlag, a) <==> IsOn(FlaggedFlag, b);
      assert IsOn(RecentFlag, a) <==> IsOn(RecentFlag, b);
      assert IsOn(DraftFlag, a) <==> IsOn(DraftFlag, b);
    }
  }

  /** Masking flags takes away the bit that reading sets, and no other. */
  lemma MaskedIs(x: bv32)
    ensures Masked(x | 32) == Masked(x)
    ensures Masked(x) | 32 == x | 32
  {
  }

  // ----- FETCH and STORE -----

  /** STORE leaves in the table, for every message in one of the ranges, the new flags, and every
      other mail as it was. */
  lemma StoreWrites(s: Session, range: MsgSet, byUid: bool, op: FlagOp, names: seq<FlagName>, silent: bool,
      db: Db, others: Others, i: nat, k: nat)
    requires s.phase == InMailbox && Numbered(s.msgs) && DistinctMailIds(s.msgs)
    requires i < |s.msgs| && k < |db.mails| && db.mails[k].mailId == s.msgs[i].mailId
    ensures var r := DispatchDb(s, WalkBox(StoreWalk(range, byUid, op, names, silent)), db, others);
      && |r.mails| == |db.mails|
      && r.mails[k] == if exists q :: q in range && q.0 <= (if byUid then s.msgs[i].uid else i + 1) <= q.1
           then db.mails[k].(flags := StoredFlags(op, names, s.msgs[i].flags)) else db.mails[k]
  {
    hide StoredFlags, SetAll, WalkMarks, WalkAll, InSet;
    var w := StoreWalk(range, byUid, op, names, silent);
    WalkWritesThrough(w, s.msgs, s.readOnly, db.mails, k, i);
    WalkAllAt(w, s.msgs, s.readOnly, i);
    InRange(range, if byUid then s.msgs[i].uid else i + 1);
  }

  /** FETCH takes the unread bit away in the table too, of exactly the messages that it read and
      that had it. */
  lemma FetchWrites(s: Session, w: Walk, db: Db, others: Others, i: nat, k: nat)
    requires s.phase == InMailbox && Numbered(s.msgs) && DistinctMailIds(s.msgs) && w.FetchWalk?
    requires i < |s.msgs| && k < |db.mails| && db.mails[k].mailId == s.msgs[i].mailId
    ensures var m, r := s.msgs[i], DispatchDb(s, WalkBox(w), db, others);
      && |r.mails| == |db.mails|
      && r.mails[k] == if (exists q :: q in w.range && q.0 <= (if w.byUid then m.uid else i + 1) <= q.1)
           && !(w.body && m.mailId in w.lost) && !w.peek && !s.readOnly && m.flags & 1 == 1
           then db.mails[k].(flags := AsRead(m.flags)) else db.mails[k]
  {
    hide SetAll, WalkMarks, WalkAll, InSet, AsRead, WalkMsg, Reads;
    WalkWritesThrough(w, s.msgs, s.readOnly, db.mails, k, i);
    WalkAllAt(w, s.msgs, s.readOnly, i);
    FetchOne(w, s.msgs[i], s.readOnly);
    ReadsIs(w, s.msgs[i], s.readOnly);
    InRange(w.range, if w.byUid then s.msgs[i].uid else i + 1);
  }

  // How many messages are written.
  function Written(w: Walk, ms: seq<Msg>, readOnly: bool): nat {
    if ms == [] then 0
    else Written(w, ms[..|ms| - 1], readOnly) + if Writes(w, ms[|ms| - 1], readOnly) then 1 else 0
  }

  lemma {:induction false} MarksCount(w: Walk, ms: seq<Msg>, readOnly: bool)
    ensures |WalkMarks(w, ms, readOnly)| == Written(w, ms, readOnly)
  {
    hide Writes, WalkMsg;
    if ms != [] {
      MarksCount(w, ms[..|ms| - 1], readOnly);
    }
  }

  /** FETCH and STORE touch no mail that is not in the list, and nothing but flags; the generation
      goes up by one for each message written, so other sessions will look. */
  lemma WalkLeaves(s: Session, w: Walk, db: Db, others: Others, k: nat)
    requires s.phase == InMailbox && k < |db.mails|
    ensures var r := DispatchDb(s, WalkBox(w), db, others);
      && r == db.(mails := r.mails, generation := db.generation + Written(w, s.msgs, s.readOnly))
      && |r.mails| == |db.mails| && r.mails[k] == db.mails[k].(flags := r.mails[k].flags)
      && ((forall i :: 0 <= i < |s.msgs| ==> s.msgs[i].mailId != db.mails[k].mailId) ==> r.mails[k] == db.mails[k])
  {
    hide SetAll, WalkMarks, Writes, WalkMsg;
    var marks := WalkMarks(w, s.msgs, s.readOnly);
    MarksCount(w, s.msgs, s.readOnly);
    SetAllFrame(db.mails, marks, k);
    if forall i :: 0 <= i < |s.msgs| ==> s.msgs[i].mailId != db.mails[k].mailId {
      forall m | m in marks
        ensures m.0 != db.mails[k].mailId
      {
        MarksFrom(w, s.msgs, s.readOnly, m);
      }
    }
  }

  // ----- what is deleted -----

  lemma {:induction false} DeletedIdsAre(ms: seq<Msg>, id: int)
    ensures id in DeletedIds(ms) <==> exists i :: 0 <= i < |ms| && ms[i].mailId == id && ms[i].flags & 8 != 0
  {
    if ms != [] {
      hide Deleted;
      var rest := ms[1..];
      DeletedIdsAre(rest, id);
      DeletedIsOn(ms[0]);
      if id in DeletedIds(rest) {
        var i :| 0 <= i < |rest| && rest[i].mailId == id && rest[i].flags & 8 != 0;
        assert ms[i + 1] == rest[i];
      }
      if i :| 0 <= i < |ms| && ms[i].mailId == id && ms[i].flags & 8 != 0 && i > 0 {
        assert rest[i - 1] == ms[i];
      }
    }
  }

  lemma {:induction false} KeptMails(mails: seq<Mail>, gone: set<int>, m: Mail)
    ensures m in KeepMails(mails, gone) <==> m in mails && m.mailId !in gone
  {
    if mails != [] {
      KeptMails(mails[1..], gone, m);
      assert m in mails <==> m == mails[0] || m in mails[1..];
    }
  }

  // The mail is shown by a message that is flagged deleted.
  predicate Doomed(ms: seq<Msg>, id: int) {
    exists i :: 0 <= i < |ms| && ms[i].mailId == id && ms[i].flags & 8 != 0
  }

  /** EXPUNGE and CLOSE, and LOGOUT and SELECT if that is configured, delete exactly the mails that
      the list shows with the deleted flag; nothing else deletes one. */
  lemma DeletesExactly(s: Session, c: Command, db: Db, others: Others, m: Mail)
    requires c.ExpungeBox? || c.CloseBox? || c.LogoutNow?
    ensures m in DispatchDb(s, c, db, others).mails <==>
      m in db.mails && !(s.phase == InMailbox && (c.LogoutNow? ==> s.autoExpunge) && Doomed(s.msgs, m.mailId))
    ensures DispatchDb(s, c, db, others).uids == db.uids
  {
    hide Purge, KeepMails, DeletedIds, Charge, Undeleted;
    PurgeFacts(s.msgs, db.mails);
    KeptMails(db.mails, DeletedIds(s.msgs), m);
    DeletedIdsAre(s.msgs, m.mailId);
  }

  lemma SelectDeletes(s: Session, folder: int, examine: bool, db: Db, others: Others, m: Mail)
    requires s.phase == Authenticated || s.phase == InMailbox
    ensures m in SelectEnv(s, SelectBox(Some(folder), examine), db, others).list2.mails <==>
      m in db.mails && !(s.phase == InMailbox && s.autoExpunge && Doomed(s.msgs, m.mailId))
  {
    hide Purge, KeepMails, DeletedIds, Charge, Undeleted, ReadDb;
    PurgeFacts(s.msgs, db.mails);
    KeptMails(db.mails, DeletedIds(s.msgs), m);
    DeletedIdsAre(s.msgs, m.mailId);
  }

  lemma {:induction false} SomeDeleted(ms: seq<Msg>, k: int)
    ensures |Undeleted(ms, k)| <= |ms|
    ensures |Undeleted(ms, k)| < |ms| <==> exists i :: 0 <= i < |ms| && ms[i].flags & 8 != 0
  {
    if ms != [] {
      hide Deleted;
      var rest := ms[1..];
      SomeDeleted(rest, if Deleted(ms[0]) then k else k + 1);
      DeletedIsOn(ms[0]);
      if i :| 0 <= i < |rest| && rest[i].flags & 8 != 0 {
        assert ms[i + 1] == rest[i];
      }
      if i :| 0 <= i < |ms| && ms[i].flags & 8 != 0 && i > 0 {
        assert rest[i - 1] == ms[i];
      }
    }
  }

  /** The generation goes up, and other sessions will look, exactly if something was flagged. */
  lemma ExpungeRaises(s: Session, c: Command, db: Db, others: Others)
    requires s.phase == InMailbox && (c.ExpungeBox? || c.CloseBox?)
    ensures DispatchDb(s, c, db, others).generation == db.generation +
      if exists i :: 0 <= i < |s.msgs| && s.msgs[i].flags & 8 != 0 then 1 else 0
  {
    hide Purge, Charge, Undeleted;
    SomeDeleted(s.msgs, 1);
  }

  function FlaggedSize(ms: seq<Msg>): nat {
    if ms == [] then 0 else (if ms[0].flags & 8 != 0 then ms[0].size else 0) + FlaggedSize(ms[1..])
  }

  lemma {:induction false} SizesCount(ms: seq<Msg>, mails: seq<Mail>)
    requires forall i :: 0 <= i < |ms| && ms[i].flags & 8 != 0 ==> RowsWith(mails, ms[i].mailId) == 1
    ensures DeletedSize(ms, mails) == FlaggedSize(ms)
  {
    if ms != [] {
      hide Deleted, RowsWith;
      DeletedIsOn(ms[0]);
      assert forall i :: 0 <= i < |ms| - 1 ==> ms[1..][i] == ms[i + 1];
      SizesCount(ms[1..], mails);
    }
  }

  /** The user is charged the sizes of the flagged messages less, if no mail is listed twice, all
      of them are still there, and they come to less than two gigabytes. */
  lemma SpaceFreed(s: Session, c: Command, db: Db, others: Others)
    requires s.phase == InMailbox && (c.ExpungeBox? || c.CloseBox?) && DistinctMailIds(s.msgs)
    requires forall i :: 0 <= i < |s.msgs| && s.msgs[i].flags & 8 != 0 ==> RowsWith(db.mails, s.msgs[i].mailId) == 1
    requires FlaggedSize(s.msgs) < 0x8000_0000
    ensures DispatchDb(s, c, db, others).spaceUsed ==
      if db.spaceUsed < FlaggedSize(s.msgs) then 0 else db.spaceUsed - FlaggedSize(s.msgs)
  {
    hide Purge, DeletedSize, Undeleted, RowsWith, Charge;
    DeletedDistinct(s.msgs);
    PurgeFacts(s.msgs, db.mails);
    SizesCount(s.msgs, db.mails);
    ChargeIs(db.spaceUsed, FlaggedSize(s.msgs));
  }

  lemma ChargeIs(used: nat, freed: nat)
    requires freed < 0x8000_0000
    ensures Charge(used, freed) == if used < freed then 0 else used - freed
  {
    assert freed % 0x1_0000_0000 == freed;
  }

  // ----- reading -----

  /** NOOP looks the folder exactly if the generation has changed, and then leaves nothing in the
      database but new UIDs and, unless the mailbox was opened by EXAMINE, seen bits. */
  lemma PollingWrites(s: Session, db: Db, others: Others, k: nat)
    requires s.userId > 0 && DbValid(db) && others.refresh == None && k < |db.mails|
    ensures var r, looks := StepDb(s, OtherCommand, db, others), s.phase == InMailbox && db.generation != s.generation;
      && r == db.(mails := r.mails, uids := if looks then TableRead(db, s.selected) else db.uids)
      && |r.mails| == |db.mails|
      && r.mails[k] == if looks && !s.readOnly && db.mails[k].folder == s.selected
           then db.mails[k].(flags := db.mails[k].flags | 32) else db.mails[k]
  {
    hide Resolve, RowsOf, SetAll, Unseen;
    if !s.readOnly {
      ReadingMarksSeen(db, s.selected, k);
      SeenBitSet(db.mails[k].flags);
    }
  }

  /** In which order a command reads: the refresh takes the generation before the list, SELECT the
      list before the generation, and what others write in between is seen by the later one. */
  lemma ReadingOrder(s: Session, c: Command, db: Db, others: Others)
    requires s.phase == InMailbox && !s.autoExpunge
    ensures var e := StepEnv(s, c, db, others);
      && e.gen1 == db.generation && e.list1 == (if others.refresh.Some? then others.refresh.value else db)
    ensures c.SelectBox? && c.folder.Some? ==>
      var e := SelectEnv(s, c, db, others);
      && e.list2 == db && e.gen2 == if others.select.Some? then others.select.value.generation else db.generation
  {
    hide RowsOf, SetAll, Unseen;
  }

  /** SELECT marks the mails of the folder as seen and EXAMINE does not; neither changes anything
      else of a mail. */
  lemma SelectMarks(s: Session, folder: int, examine: bool, db: Db, others: Others, k: nat)
    requires (s.phase == Authenticated || (s.phase == InMailbox && !s.autoExpunge)) && DbValid(db)
    requires others.select == None && k < |db.mails|
    ensures var r := DispatchDb(s, SelectBox(Some(folder), examine), db, others);
      && r == db.(mails := r.mails, uids := TableRead(db, folder)) && |r.mails| == |db.mails|
      && r.mails[k] == if !examine && db.mails[k].folder == folder
           then db.mails[k].(flags := db.mails[k].flags | 32) else db.mails[k]
  {
    hide Resolve, RowsOf, SetAll, Unseen;
    ReadingMarksSeen(db, folder, k);
    SeenBitSet(db.mails[k].flags);
  }

  lemma SeenBitSet(flags: bv32)
    ensures WithSeen(flags) == flags | 32
  {
  }
}
