/** The session object whose methods carry out the commands of ImapSession. */
module ImapCommands {
  import opened Options
  import opened ImapMessages
  import opened ImapDelta
  import opened ImapFetch
  import opened ImapSession
  import opened ImapFresh

  // ----- what EXPUNGE does to the database -----

  function RowsWith(mails: seq<Mail>, id: int): nat {
    if mails == [] then 0 else (if mails[0].mailId == id then 1 else 0) + RowsWith(mails[1..], id)
  }

  function RemoveMail(mails: seq<Mail>, id: int): seq<Mail> {
    if mails == [] then []
    else (if mails[0].mailId == id then [] else [mails[0]]) + RemoveMail(mails[1..], id)
  }

  // Deletes the mail of every message flagged deleted, one after the other; the second
  // result adds up the sizes of those for which one row was affected.
  function Purge(ms: seq<Msg>, mails: seq<Mail>): (seq<Mail>, nat)
    decreases |ms|
  {
    if ms == [] then (mails, 0)
    else if Deleted(ms[0]) then
      var (rest, freed) := Purge(ms[1..], RemoveMail(mails, ms[0].mailId));
      (rest, (if RowsWith(mails, ms[0].mailId) == 1 then ms[0].size else 0) + freed)
    else Purge(ms[1..], mails)
  }

  function DeletedIds(ms: seq<Msg>): set<int> {
    if ms == [] then {} else (if Deleted(ms[0]) then {ms[0].mailId} else {}) + DeletedIds(ms[1..])
  }

  function KeepMails(mails: seq<Mail>, gone: set<int>): seq<Mail> {
    if mails == [] then []
    else (if mails[0].mailId in gone then [] else [mails[0]]) + KeepMails(mails[1..], gone)
  }

  function DeletedSize(ms: seq<Msg>, mails: seq<Mail>): nat {
    if ms == [] then 0
    else
      var size := if Deleted(ms[0]) && RowsWith(mails, ms[0].mailId) == 1 then ms[0].size else 0;
      size + DeletedSize(ms[1..], mails)
  }

  predicate DistinctDeleted(ms: seq<Msg>) {
    ms != [] ==> (Deleted(ms[0]) ==> ms[0].mailId !in DeletedIds(ms[1..])) && DistinctDeleted(ms[1..])
  }

  lemma {:induction false} KeepAfterRemove(mails: seq<Mail>, id: int, gone: set<int>)
    ensures KeepMails(RemoveMail(mails, id), gone) == KeepMails(mails, {id} + gone)
  {
    if mails != [] {
      KeepAfterRemove(mails[1..], id, gone);
      if mails[0].mailId != id {
        assert RemoveMail(mails, id)[1..] == RemoveMail(mails[1..], id);
      } else {
        assert RemoveMail(mails, id) == RemoveMail(mails[1..], id);
      }
    }
  }

  lemma {:induction false} KeepNone(mails: seq<Mail>)
    ensures KeepMails(mails, {}) == mails
  {
    if mails != [] {
      KeepNone(mails[1..]);
    }
  }

  lemma {:induction false} RowsAfterRemove(mails: seq<Mail>, id: int, other: int)
    requires id != other
    ensures RowsWith(RemoveMail(mails, id), other) == RowsWith(mails, other)
  {
    if mails != [] {
      RowsAfterRemove(mails[1..], id, other);
      if mails[0].mailId != id {
        assert RemoveMail(mails, id)[1..] == RemoveMail(mails[1..], id);
      } else {
        assert RemoveMail(mails, id) == RemoveMail(mails[1..], id);
      }
    }
  }

  lemma {:induction false} SizeAfterRemove(ms: seq<Msg>, mails: seq<Mail>, id: int)
    requires id !in DeletedIds(ms)
    ensures DeletedSize(ms, RemoveMail(mails, id)) == DeletedSize(ms, mails)
  {
    if ms != [] {
      SizeAfterRemove(ms[1..], mails, id);
      if Deleted(ms[0]) {
        RowsAfterRemove(mails, id, ms[0].mailId);
      }
    }
  }

  /** The rows that remain are those of mails not flagged deleted, and the freed space is the
      total size of the flagged mails that were really there. */
  lemma {:induction false} PurgeFacts(ms: seq<Msg>, mails: seq<Mail>)
    ensures Purge(ms, mails).0 == KeepMails(mails, DeletedIds(ms))
    ensures DistinctDeleted(ms) ==> Purge(ms, mails).1 == DeletedSize(ms, mails)
    decreases |ms|
  {
    if ms == [] {
      KeepNone(mails);
    } else if Deleted(ms[0]) {
      var id := ms[0].mailId;
      PurgeFacts(ms[1..], RemoveMail(mails, id));
      KeepAfterRemove(mails, id, DeletedIds(ms[1..]));
      if DistinctDeleted(ms) {
        SizeAfterRemove(ms[1..], mails, id);
      }
    } else {
      PurgeFacts(ms[1..], mails);
      assert DeletedIds(ms) == DeletedIds(ms[1..]);
    }
  }

  // The freed space goes into the query as a C int.
  function ToInt32(x: nat): int {
    var y := x % 0x1_0000_0000;
    if y < 0x8000_0000 then y else y - 0x1_0000_0000
  }

  function Min(a: int, b: int): int {
    if a < b then a else b
  }

  function Charge(used: nat, freed: nat): nat {
    if freed > 0 then used - Min(used, ToInt32(freed)) else used
  }

  /** The user is charged the freed space less (never below zero) if and only if that space
      is under two gigabytes or even its truncated value covers all that was used. */
  lemma ChargeExact(used: nat, freed: nat)
    ensures Charge(used, freed) == used - Min(used, freed) <==> freed < 0x8000_0000 || used <= ToInt32(freed)
  {
    if freed < 0x8000_0000 {
      assert freed % 0x1_0000_0000 == freed;
    } else {
      assert ToInt32(freed) < freed;
    }
  }

  lemma ChargeGrows()
    ensures Charge(0, 0x8000_0000) == 0x8000_0000
  {
    assert ToInt32(0x8000_0000) == -0x8000_0000;
  }

  // Sequence numbers above an expunged one move down.
  function Down(m: Msg, n: int): Msg {
    if m.seqId > n then m.(seqId := m.seqId - 1) else m
  }

  // Nothing before position i is flagged deleted: the first step of Undeleted,
  // ExpungeLines and Purge happens at i.
  lemma {:induction false} FirstDeleted(ms: seq<Msg>, r: seq<Msg>, i: nat, k: int, mails: seq<Mail>)
    requires i < |ms| && Deleted(ms[i]) && forall j :: 0 <= j < i ==> !Deleted(ms[j])
    requires SameButNumbers(r, ms[..i] + ms[i + 1..])
    ensures ExpungeLines(ms, k) == [Expunge(k + i)] + ExpungeLines(r, k)
    ensures Undeleted(ms, k) == Undeleted(r, k)
    ensures var (rest, freed) := Purge(r, RemoveMail(mails, ms[i].mailId));
      Purge(ms, mails) == (rest, (if RowsWith(mails, ms[i].mailId) == 1 then ms[i].size else 0) + freed)
  {
    if i == 0 {
      assert ms[..0] + ms[1..] == ms[1..];
      Renumbered(r, ms[1..], k, RemoveMail(mails, ms[0].mailId));
    } else {
      assert r[0].(seqId := 0) == (ms[..i] + ms[i + 1..])[0].(seqId := 0) == ms[0].(seqId := 0);
      assert forall j :: 0 <= j < |r| - 1 ==> r[1..][j].(seqId := 0) == (ms[..i] + ms[i + 1..])[j + 1].(seqId := 0);
      assert ms[1..][..i - 1] + ms[1..][i..] == (ms[..i] + ms[i + 1..])[1..];
      FirstDeleted(ms[1..], r[1..], i - 1, k + 1, mails);
      assert r[0].(seqId := k) == ms[0].(seqId := k);
      PurgeSkips(r, RemoveMail(mails, ms[i].mailId));
    }
  }

  lemma PurgeSkips(ms: seq<Msg>, mails: seq<Mail>)
    requires ms != [] && !Deleted(ms[0])
    ensures Purge(ms, mails) == Purge(ms[1..], mails)
  {
  }

  lemma {:induction false} Renumbered(a: seq<Msg>, b: seq<Msg>, k: int, mails: seq<Mail>)
    requires SameButNumbers(a, b)
    ensures ExpungeLines(a, k) == ExpungeLines(b, k)
    ensures Undeleted(a, k) == Undeleted(b, k)
    ensures Purge(a, mails) == Purge(b, mails)
    decreases |a|
  {
    if a != [] {
      assert a[0].(seqId := 0) == b[0].(seqId := 0) && a[0].(seqId := k) == b[0].(seqId := k);
      assert SameButNumbers(a[1..], b[1..]);
      Renumbered(a[1..], b[1..], if Deleted(a[0]) then k else k + 1,
        if Deleted(a[0]) then RemoveMail(mails, a[0].mailId) else mails);
    }
  }

  // ----- what a session does to the database -----

  // FlagMessage: the flags of one mail.
  function SetFlags(mails: seq<Mail>, id: int, flags: bv32): (r: seq<Mail>)
    ensures |r| == |mails|
  {
    seq(|mails|, i requires 0 <= i < |mails| => if mails[i].mailId == id then mails[i].(flags := flags) else mails[i])
  }

  function SetAll(mails: seq<Mail>, marks: seq<Mark>): (r: seq<Mail>)
    ensures |r| == |mails|
  {
    if marks == [] then mails
    else
      var m := marks[|marks| - 1];
      SetFlags(SetAll(mails, marks[..|marks| - 1]), m.0, m.1)
  }

  // Reading the list hands out UIDs and sets the seen bits, unless the mailbox is read-only.
  function ReadDb(db: Db, folder: int, readOnly: bool): Db {
    var rows := RowsOf(db.mails, db.uids, folder);
    Db(if readOnly then db.mails else SetAll(db.mails, Unseen(rows)), Resolve(db.uids, rows).0, db.generation, db.spaceUsed)
  }

  function ExpungeDb(ms: seq<Msg>, db: Db): Db {
    var (rest, freed) := Purge(ms, db.mails);
    Db(rest, db.uids, db.generation + (if |Undeleted(ms, 1)| < |ms| then 1 else 0), Charge(db.spaceUsed, freed))
  }

  // The messages whose flags FETCH and STORE write back.
  predicate Writes(w: Walk, m: Msg, readOnly: bool) {
    Treats(w, m) && (w.StoreWalk? || Reads(w, m, readOnly))
  }

  function WalkMarks(w: Walk, ms: seq<Msg>, readOnly: bool): seq<Mark> {
    if ms == [] then []
    else
      var m := ms[|ms| - 1];
      WalkMarks(w, ms[..|ms| - 1], readOnly)
      + if Writes(w, m, readOnly) then [(m.mailId, WalkMsg(w, m, readOnly).flags)] else []
  }

  function WalkDb(w: Walk, ms: seq<Msg>, readOnly: bool, db: Db): Db {
    var marks := WalkMarks(w, ms, readOnly);
    db.(mails := SetAll(db.mails, marks), generation := db.generation + |marks|)
  }

  // Other processes may write at two points of a command: between the reading of the
  // generation and that of the list in the refresh, and the other way round in SELECT.
  datatype Others = Others(refresh: Option<Db>, select: Option<Db>)

  function Later(other: Option<Db>, db: Db): Db {
    if other.Some? then other.value else db
  }

  predicate Refreshes(s: Session, db: Db) {
    s.phase == InMailbox && db.generation != s.generation
  }

  function RefreshDb(s: Session, db: Db, other: Option<Db>): Db {
    if Refreshes(s, db) then ReadDb(Later(other, db), s.selected, s.readOnly) else db
  }

  function IdleDb(s: Session, polls: seq<Env>, db: Db): Db
    decreases |polls|
  {
    if polls == [] then db
    else
      var before := polls[0].list1.(generation := polls[0].gen1);
      IdleDb(Refresh(s, polls[0].gen1, polls[0].list1).0, polls[1..], RefreshDb(s, before, Some(polls[0].list1)))
  }

  // What SELECT leaves of the mailbox it closes.
  function ClosedDb(s: Session, db: Db): Db {
    if s.phase == InMailbox && s.autoExpunge then ExpungeDb(s.msgs, db) else db
  }

  function DispatchDb(s: Session, c: Command, db: Db, others: Others): Db {
    match c
    case SelectBox(folder, examine) =>
      if (s.phase == Authenticated || s.phase == InMailbox) && folder.Some?
      then Later(others.select, ReadDb(ClosedDb(s, db), folder.value, examine)) else db
    case ExpungeBox => if s.phase == InMailbox then ExpungeDb(s.msgs, db) else db
    case CloseBox => if s.phase == InMailbox then ExpungeDb(s.msgs, db) else db
    case LogoutNow => ClosedDb(s, db)
    case WalkBox(w) => if s.phase == InMailbox then WalkDb(w, s.msgs, s.readOnly, db) else db
    case IdleWait(polls) => if s.phase == Authenticated || s.phase == InMailbox then IdleDb(s, polls, db) else db
    case _ => db
  }

  function StepDb(s: Session, c: Command, db: Db, others: Others): Db {
    if s.userId > 0 && !SkipsRefresh(c) then
      DispatchDb(Refresh(s, db.generation, Later(others.refresh, db)).0, c, RefreshDb(s, db, others.refresh), others)
    else DispatchDb(s, c, db, others)
  }

  // What a command sees of the database when it reads list and generation in SELECT.
  function SelectEnv(s: Session, c: Command, db: Db, others: Others): Env {
    if c.SelectBox? && c.folder.Some? && (s.phase == Authenticated || s.phase == InMailbox) then
      Env(0, db, ClosedDb(s, db), DispatchDb(s, c, db, others).generation)
    else Env(0, db, db, 0)
  }

  // The same for the whole command, the refresh included.
  function StepEnv(s: Session, c: Command, db: Db, others: Others): Env {
    var list := Later(others.refresh, db);
    var (s1, db1) :=
      if s.userId > 0 && !SkipsRefresh(c) then (Refresh(s, db.generation, list).0, RefreshDb(s, db, others.refresh))
      else (s, db);
    SelectEnv(s1, c, db1, others).(gen1 := db.generation, list1 := list)
  }

  // ----- the flags written are those of the list -----

  lemma {:induction false} SetAllSnoc(mails: seq<Mail>, marks: seq<Mark>, m: Mark)
    ensures SetAll(mails, marks + [m]) == SetFlags(SetAll(mails, marks), m.0, m.1)
  {
    assert (marks + [m])[..|marks|] == marks;
  }

  predicate NotMarked(marks: seq<Mark>, id: int) {
    forall m :: m in marks ==> m.0 != id
  }

  predicate SameButFlags(a: Mail, b: Mail) {
    a.folder == b.folder && a.mailId == b.mailId && a.size == b.size
  }

  // A mail whose id is not marked keeps its flags; nothing but flags ever changes.
  lemma {:induction false} SetAllFrame(mails: seq<Mail>, marks: seq<Mark>, i: nat)
    requires i < |mails|
    ensures SameButFlags(SetAll(mails, marks)[i], mails[i])
    ensures NotMarked(marks, mails[i].mailId) ==> SetAll(mails, marks)[i] == mails[i]
  {
    if marks != [] {
      var n := |marks| - 1;
      SetAllFrame(mails, marks[..n], i);
      assert marks[n] in marks && (forall m :: m in marks[..n] ==> m in marks);
    }
  }

  // All marks of a mail set the same flags.
  lemma {:induction false} SetAllAt(mails: seq<Mail>, marks: seq<Mark>, i: nat, flags: bv32)
    requires i < |mails| && forall m :: m in marks && m.0 == mails[i].mailId ==> m.1 == flags
    ensures SetAll(mails, marks)[i] ==
      if NotMarked(marks, mails[i].mailId) then mails[i] else mails[i].(flags := flags)
  {
    SetAllFrame(mails, marks, i);
    if marks != [] {
      var n := |marks| - 1;
      assert marks[n] in marks && (forall m :: m in marks <==> m in marks[..n] || m == marks[n]);
      SetAllAt(mails, marks[..n], i, flags);
    }
  }

  lemma {:induction false} UnseenRows(rows: seq<Row>, m: Mark)
    ensures m in Unseen(rows) <==>
      exists r :: r in rows && m == (r.mailId, WithSeen(r.flags)) && !Flagged(FLAG_SEEN, r.flags)
  {
    if rows != [] {
      var n := |rows| - 1;
      UnseenRows(rows[..n], m);
      assert forall r :: r in rows <==> r in rows[..n] || r == rows[n];
    }
  }

  lemma {:induction false} RowOfMail(mails: seq<Mail>, t: Table, folder: int, i: nat, r: Row)
    requires DistinctIn(mails) && i < |mails|
    ensures r in RowsOf(mails, t, folder) && r.mailId == mails[i].mailId ==>
      mails[i].folder == folder && r.flags == mails[i].flags
    ensures mails[i].folder == folder ==>
      exists r :: r in RowsOf(mails, t, folder) && r.mailId == mails[i].mailId && r.flags == mails[i].flags
  {
    var rest := RowsOf(mails[1..], t, folder);
    IdsInside(mails[1..], t, folder);
    if i > 0 {
      RowOfMail(mails[1..], t, folder, i - 1, r);
      assert mails[i] == mails[1..][i - 1] && mails[i].mailId in AllIds(mails[1..]) by {
        IdsInside(mails[1..], t, folder);
      }
      if mails[i].folder == folder {
        var q :| q in rest && q.mailId == mails[i].mailId && q.flags == mails[i].flags;
        assert q in RowsOf(mails, t, folder);
      }
    } else if mails[0].folder == folder {
      assert RowsOf(mails, t, folder)[0].mailId == mails[0].mailId;
    }
  }

  lemma {:induction false} IdsInside(mails: seq<Mail>, t: Table, folder: int)
    ensures forall r :: r in RowsOf(mails, t, folder) ==> r.mailId in AllIds(mails)
    ensures forall i :: 0 <= i < |mails| ==> mails[i].mailId in AllIds(mails)
  {
    if mails != [] {
      IdsInside(mails[1..], t, folder);
    }
  }

  /** Reading a folder that is not read-only sets the seen bit of each of its mails, and changes
      nothing else in the table of mails. */
  lemma ReadingMarksSeen(db: Db, folder: int, i: nat)
    requires DistinctIn(db.mails) && i < |db.mails|
    ensures var m := db.mails[i];
      ReadDb(db, folder, false).mails[i] == if m.folder == folder then m.(flags := WithSeen(m.flags)) else m
  {
    hide Resolve, SetAll, RowsOf, Unseen, DistinctIn, Flagged, WithSeen;
    var m, rows := db.mails[i], RowsOf(db.mails, db.uids, folder);
    var marks := Unseen(rows);
    forall k: Mark | k in marks && k.0 == m.mailId
      ensures k.1 == WithSeen(m.flags) && m.folder == folder
    {
      UnseenRows(rows, k);
      var r :| r in rows && k == (r.mailId, WithSeen(r.flags)) && !Flagged(FLAG_SEEN, r.flags);
      RowOfMail(db.mails, db.uids, folder, i, r);
    }
    SetAllAt(db.mails, marks, i, WithSeen(m.flags));
    if m.folder == folder {
      RowOfMail(db.mails, db.uids, folder, i, Row(0, 0, 0, None));
      var r :| r in rows && r.mailId == m.mailId && r.flags == m.flags;
      UnseenRows(rows, (m.mailId, WithSeen(m.flags)));
      AlreadySeen(m.flags);
    }
  }

  lemma AlreadySeen(flags: bv32)
    ensures Flagged(FLAG_SEEN, flags) ==> WithSeen(flags) == flags
  {
  }

  predicate DistinctMailIds(ms: seq<Msg>) {
    forall i, j :: 0 <= i < j < |ms| ==> ms[i].mailId != ms[j].mailId
  }

  // The marks are those of the messages whose flags are written.
  lemma {:induction false} MarksFrom(w: Walk, ms: seq<Msg>, readOnly: bool, m: Mark)
    ensures m in WalkMarks(w, ms, readOnly) <==>
      exists k :: 0 <= k < |ms| && Writes(w, ms[k], readOnly) && m == (ms[k].mailId, WalkMsg(w, ms[k], readOnly).flags)
  {
    hide Writes, WalkMsg;
    if ms != [] {
      var n := |ms| - 1;
      var front := ms[..n];
      MarksFrom(w, front, readOnly, m);
      assert forall k :: 0 <= k < n ==> front[k] == ms[k];
      if m in WalkMarks(w, front, readOnly) {
        var k :| 0 <= k < n && Writes(w, front[k], readOnly) && m == (front[k].mailId, WalkMsg(w, front[k], readOnly).flags);
        assert Writes(w, ms[k], readOnly);
      }
    }
  }

  /** FETCH and STORE write through: afterwards the table holds, for every message whose flags
      they wrote, the flags that the list holds; all other mails are as they were. */
  lemma WalkWritesThrough(w: Walk, ms: seq<Msg>, readOnly: bool, mails: seq<Mail>, i: nat, j: nat)
    requires DistinctMailIds(ms) && i < |mails| && j < |ms| && mails[i].mailId == ms[j].mailId
    ensures var mail := SetAll(mails, WalkMarks(w, ms, readOnly))[i];
      mail == if Writes(w, ms[j], readOnly) then mails[i].(flags := WalkAll(w, ms, readOnly)[j].flags) else mails[i]
  {
    hide Writes, WalkMsg, SetFlags, SetAll, WalkMarks, WalkAll;
    var marks, flags := WalkMarks(w, ms, readOnly), WalkMsg(w, ms[j], readOnly).flags;
    forall m: Mark | m in marks && m.0 == mails[i].mailId
      ensures m.1 == flags && Writes(w, ms[j], readOnly)
    {
      MarksFrom(w, ms, readOnly, m);
      var k :| 0 <= k < |ms| && Writes(w, ms[k], readOnly) && m == (ms[k].mailId, WalkMsg(w, ms[k], readOnly).flags);
      assert k == j;
    }
    MarksFrom(w, ms, readOnly, (ms[j].mailId, flags));
    SetAllAt(mails, marks, i, flags);
    WalkAllAt(w, ms, readOnly, j);
  }

  class Database {
    var mails: seq<Mail>
    var generation: int
    var spaceUsed: nat
    const uids: UidTable

    ghost function State(): Db
      reads this, uids
    {
      Db(mails, uids.State(), generation, spaceUsed)
    }

    constructor (db: Db)
      ensures State() == db && fresh(uids)
    {
      mails, generation, spaceUsed := db.mails, db.generation, db.spaceUsed;
      uids := new UidTable(db.uids);
    }

    // Other processes have written meanwhile.
    method Become(db: Db)
      modifies this, uids
      ensures State() == db
    {
      mails, generation, spaceUsed := db.mails, db.generation, db.spaceUsed;
      uids.uids, uids.next := db.uids.uids, db.uids.next;
    }

    // UPDATE bm60_mails SET flags; the generation goes up unless that is switched off.
    method FlagMessage(flags: bv32, id: int, noGenerationInc: bool)
      modifies this`mails, this`generation
      ensures mails == SetFlags(old(mails), id, flags)
      ensures generation == old(generation) + if noGenerationInc then 0 else 1
    {
      mails := SetFlags(mails, id, flags);
      if !noGenerationInc {
        generation := generation + 1;
      }
    }

    // FlagMessage for one mail after the other.
    method FlagMessages(marks: seq<Mark>, noGenerationInc: bool)
      modifies this`mails, this`generation
      ensures mails == SetAll(old(mails), marks)
      ensures generation == old(generation) + if noGenerationInc then 0 else |marks|
    {
      hide SetFlags;
      for i := 0 to |marks|
        invariant mails == SetAll(old(mails), marks[..i])
        invariant generation == old(generation) + if noGenerationInc then 0 else i
      {
        SetAllSnoc(old(mails), marks[..i], marks[i]);
        assert marks[..i + 1] == marks[..i] + [marks[i]];
        FlagMessage(marks[i].1, marks[i].0, noGenerationInc);
      }
      assert marks[..|marks|] == marks;
    }

    // DELETE FROM bm60_mails WHERE id and userid; returns the affected rows.
    method Delete(id: int) returns (affected: nat)
      modifies this`mails
      ensures mails == RemoveMail(old(mails), id) && affected == RowsWith(old(mails), id)
    {
      affected := RowsWith(mails, id);
      mails := RemoveMail(mails, id);
    }
  }

  class Imap {
    var phase: Phase
    var userId: int
    var autoExpunge: bool
    var limit: nat
    var selected: int
    var readOnly: bool
    var generation: int
    var msgs: seq<Msg>
    var out: seq<Line>

    const db: Database

    ghost function State(): Session
      reads this
    {
      Session(phase, userId, autoExpunge, limit, selected, readOnly, generation, msgs)
    }

    ghost predicate Valid()
      reads this
    {
      phase == InMailbox ==> Numbered(msgs)
    }

    constructor (db: Database, autoExpunge: bool)
      ensures Valid() && this.db == db && out == []
      ensures State() == Session(NonAuthenticated, -1, autoExpunge, 0, 0, false, 0, [])
    {
      phase, userId, selected, readOnly, generation := NonAuthenticated, -1, 0, false, 0;
      this.autoExpunge, limit, msgs, out, this.db := autoExpunge, 0, [], [], db;
    }

    method FetchSelected(folder: int) returns (list: seq<Msg>)
      modifies db, db.uids
      ensures list == FetchList(old(db.State()), folder, limit)
      ensures db.State() == ReadDb(old(db.State()), folder, readOnly)
    {
      hide SetAll, Resolve, RowsOf, Unseen, Fetched;
      var marks;
      list, marks := FetchMessages(RowsOf(db.mails, db.uids.State(), folder), db.uids, limit, readOnly);
      if |marks| > 0 {
        db.FlagMessages(marks, true);
      } else {
        NoMarks(db.mails, marks);
      }
    }

    // What other processes have written in the meantime.
    method LetOthersWrite(other: Option<Db>)
      modifies db, db.uids
      ensures db.State() == Later(other, old(db.State()))
    {
      if other.Some? {
        db.Become(other.value);
      }
    }

    method RefreshList(other: Option<Db>)
      requires Valid()
      modifies this`msgs, this`generation, this`out, db, db.uids
      ensures Valid() && db.State() == RefreshDb(old(State()), old(db.State()), other)
      ensures var (s, lines) := Refresh(old(State()), old(db.generation), Later(other, old(db.State())));
        State() == s && out == old(out) + lines
    {
      hide ReadDb, FetchList, DeltaLines;
      var current := db.generation;
      if phase == InMailbox && current != generation {
        LetOthersWrite(other);
        var newMessages := FetchSelected(selected);
        generation := current;
        var rest, lines, warned := ReportDelta(msgs, newMessages);
        out := out + lines;
        msgs := newMessages;
      }
    }

    /** EXPUNGE: deletes what is flagged, starting over from the top after each deletion. */
    method ExpungeMessages(silent: bool)
      requires Valid() && phase == InMailbox
      modifies this`msgs, this`out, db
      ensures Valid() && msgs == Undeleted(old(msgs), 1)
      ensures out == old(out) + (if silent then [] else ExpungeLines(old(msgs), 1))
      ensures db.State() == ExpungeDb(old(msgs), old(db.State()))
    {
      var freed, modified := DeleteFlagged(silent);
      if modified {
        db.generation := db.generation + 1;
      }
      if freed > 0 {
        db.spaceUsed := Charge(db.spaceUsed, freed);
      }
    }

    method DeleteFlagged(silent: bool) returns (freed: nat, modified: bool)
      requires Valid() && phase == InMailbox
      modifies this`msgs, this`out, db`mails
      ensures Valid() && msgs == Undeleted(old(msgs), 1)
      ensures out == old(out) + (if silent then [] else ExpungeLines(old(msgs), 1))
      ensures (db.mails, freed) == Purge(old(msgs), old(db.mails))
      ensures modified <==> |msgs| < |old(msgs)|
    {
      freed, modified := 0, false;
      var i := 0;
      ghost var all, total := old(msgs), Purge(msgs, db.mails);
      while i < |msgs|
        invariant i <= |msgs| <= |all| && Numbered(msgs)
        invariant forall j :: 0 <= j < i ==> !Deleted(msgs[j])
        invariant Undeleted(msgs, 1) == Undeleted(all, 1)
        invariant silent ==> out == old(out)
        invariant !silent ==> out + ExpungeLines(msgs, 1) == old(out) + ExpungeLines(all, 1)
        invariant Purge(msgs, db.mails) == (total.0, total.1 - freed)
        invariant modified <==> |msgs| < |all|
        decreases |msgs|, |msgs| - i
      {
        if Deleted(msgs[i]) {
          var gone := EraseMessage(i, silent);
          freed := freed + gone;
          modified := true;
          i := 0;  // goto lblTop
        } else {
          i := i + 1;
        }
      }
      NothingDeleted(msgs, 1, db.mails);
    }

    // Deletes the message at position i and its mail, and renumbers those after it.
    method EraseMessage(i: nat, silent: bool) returns (freed: nat)
      requires i < |msgs| && Numbered(msgs) && Deleted(msgs[i])
      requires forall j :: 0 <= j < i ==> !Deleted(msgs[j])
      modifies this`msgs, this`out, db`mails
      ensures |msgs| == |old(msgs)| - 1 && Numbered(msgs)
      ensures Undeleted(msgs, 1) == Undeleted(old(msgs), 1)
      ensures silent ==> out == old(out)
      ensures !silent ==> out + ExpungeLines(msgs, 1) == old(out) + ExpungeLines(old(msgs), 1)
      ensures var p := Purge(old(msgs), old(db.mails));
        p.1 >= freed && Purge(msgs, db.mails) == (p.0, p.1 - freed)
    {
      var m := msgs[i];
      var affected := db.Delete(m.mailId);
      freed := if affected == 1 then m.size else 0;
      var r := msgs[..i] + msgs[i + 1..];
      ghost var erased := r;
      for j := 0 to |r|
        invariant |r| == |erased|
        invariant forall x :: 0 <= x < |r| ==> r[x] == if x < j then Down(erased[x], m.seqId) else erased[x]
      {
        if r[j].seqId > m.seqId {
          r := r[j := r[j].(seqId := r[j].seqId - 1)];
        }
      }
      msgs := r;
      FirstDeleted(old(msgs), msgs, i, 1, old(db.mails));
      ghost var left := Purge(msgs, db.mails);
      assert Purge(old(msgs), old(db.mails)) == (left.0, freed + left.1);
      if !silent {
        out := out + [Expunge(m.seqId)];
        assert out + ExpungeLines(msgs, 1) == old(out) + ([Expunge(m.seqId)] + ExpungeLines(msgs, 1));
      }
    }

    // FETCH and STORE: every message of the set in turn, on the list and in the database.
    method WalkMessages(w: Walk)
      requires Valid() && phase == InMailbox
      modifies this`msgs, this`out, db
      ensures Valid() && msgs == WalkAll(w, old(msgs), readOnly)
      ensures out == old(out) + WalkOut(w, old(msgs), readOnly)
      ensures db.State() == WalkDb(w, old(msgs), readOnly, old(db.State()))
    {
      hide WalkLines, Treats, Writes, WalkMsg, SetFlags;
      ghost var was, before := msgs, db.State();
      var list, lines := msgs, [];
      for i := 0 to |list|
        invariant |list| == |was| && out == old(out)
        invariant forall j :: 0 <= j < |was| ==> list[j] == if j < i then WalkMsg(w, was[j], readOnly) else was[j]
        invariant lines == WalkOut(w, was[..i], readOnly)
        invariant db.State() == WalkDb(w, was[..i], readOnly, before)
      {
        WalkOneMore(w, was, readOnly, i, before);
        var m := list[i];
        lines := lines + WalkLines(w, m, readOnly);
        list := list[i := WalkMsg(w, m, readOnly)];
        if Writes(w, m, readOnly) {
          db.FlagMessage(list[i].flags, m.mailId, false);
        }
      }
      assert was[..|was|] == was;
      WalkAllIs(w, was, readOnly, list);
      msgs, out := list, out + lines;
    }

    method OpenBox(folder: int, examine: bool, other: Option<Db>)
      modifies this, db, db.uids
      ensures State() == old(State()).(phase := InMailbox, readOnly := examine, selected := folder,
        msgs := FetchList(old(db.State()), folder, limit), generation := db.generation)
      ensures out == old(out) + SelectLines(msgs)
      ensures db.State() == Later(other, ReadDb(old(db.State()), folder, examine))
    {
      hide ReadDb, FetchList;
      phase, readOnly, selected := InMailbox, examine, folder;
      msgs := FetchSelected(selected);
      LetOthersWrite(other);
      generation := db.generation;
      out := out + SelectLines(msgs);
    }

    method Select(folder: Option<int>, examine: bool, others: Others)
      requires Valid()
      modifies this, db, db.uids
      ensures var c, s, before := SelectBox(folder, examine), old(State()), old(db.State());
        && Valid() && db.State() == DispatchDb(s, c, before, others)
        && State() == Dispatch(s, c, SelectEnv(s, c, before, others)).0
        && out == old(out) + Dispatch(s, c, SelectEnv(s, c, before, others)).1
    {
      hide ReadDb, ExpungeDb, FetchList, SelectLines, ExpungeLines, Undeleted, IdleDb, WalkDb, WalkAll, WalkOut;
      if (phase == Authenticated || phase == InMailbox) && folder.Some? {
        if phase == InMailbox {
          if autoExpunge {
            ghost var printed := out;
            ExpungeMessages(true);
            assert out == printed;
          }
          selected := 0;
        }
        OpenBox(folder.value, examine, others.select);
      }
    }

    method Close()
      requires Valid() && phase == InMailbox
      modifies this, db
      ensures Valid() && out == old(out) && db.State() == ExpungeDb(old(msgs), old(db.State()))
      ensures State() == old(State()).(phase := Authenticated, selected := -1, msgs := [])
    {
      hide ExpungeDb;
      ExpungeMessages(true);
      msgs, selected, phase := [], -1, Authenticated;
    }

    method Logout()
      requires Valid()
      modifies this, db
      ensures Valid() && out == old(out) && db.State() == ClosedDb(old(State()), old(db.State()))
      ensures State() == if old(phase) == InMailbox then
          old(State()).(phase := LoggedOut, selected := -1, msgs := [])
        else old(State()).(phase := LoggedOut)
    {
      hide ExpungeDb;
      if phase == InMailbox {
        if autoExpunge {
          ExpungeMessages(true);
        }
        msgs, selected := [], -1;
      }
      phase := LoggedOut;
    }

    // IDLE: at every poll the database holds whatever other processes have left there, when
    // the generation is read and again when the list is.
    method WaitIdle(polls: seq<Env>)
      requires Valid()
      modifies this`msgs, this`generation, this`out, db, db.uids
      ensures Valid() && db.State() == IdleDb(old(State()), polls, old(db.State()))
      ensures State() == Idle(old(State()), polls).0
      ensures out == old(out) + Idle(old(State()), polls).1
    {
      hide Refresh, RefreshDb;
      ghost var start, lines, before := State(), [], db.State();
      assert polls[0..] == polls;
      for i := 0 to |polls|
        invariant Valid() && out == old(out) + lines
        invariant Idle(start, polls).0 == Idle(State(), polls[i..]).0
        invariant Idle(start, polls).1 == lines + Idle(State(), polls[i..]).1
        invariant IdleDb(start, polls, before) == IdleDb(State(), polls[i..], db.State())
      {
        lines := lines + Refresh(State(), polls[i].gen1, polls[i].list1).1;
        assert polls[i..][1..] == polls[i + 1..] && polls[i..][0] == polls[i];
        db.Become(polls[i].list1.(generation := polls[i].gen1));
        RefreshList(Some(polls[i].list1));
      }
    }

    /** One command line: refresh first unless the command forbids it, then carry it out.
        others tells what other processes write to the database meanwhile. */
    method ProcessLine(c: Command, others: Others)
      requires Valid()
      modifies this, db, db.uids
      ensures var s, before := old(State()), old(db.State());
        && Valid() && db.State() == StepDb(s, c, before, others)
        && State() == Step(s, c, StepEnv(s, c, before, others)).0
        && out == old(out) + Step(s, c, StepEnv(s, c, before, others)).1
    {
      hide Refresh, Dispatch, RefreshDb, DispatchDb, SelectEnv;
      ghost var before, s, d := out, State(), db.State();
      if userId > 0 && !SkipsRefresh(c) {
        RefreshList(others.refresh);
      }
      ghost var s1, d1, l1 := State(), db.State(), out[|before|..];
      assert out == before + l1;
      Carry(c, others);
      ghost var late := SelectEnv(s1, c, d1, others);
      assert out == before + (l1 + Dispatch(s1, c, late).1);
      StepOf(s, c, late, d.generation, Later(others.refresh, d), s1, l1);
    }

    // The dispatch on the command name.
    method Carry(c: Command, others: Others)
      requires Valid()
      modifies this, db, db.uids
      ensures var s, before := old(State()), old(db.State());
        && Valid() && db.State() == DispatchDb(s, c, before, others)
        && State() == Dispatch(s, c, SelectEnv(s, c, before, others)).0
        && out == old(out) + Dispatch(s, c, SelectEnv(s, c, before, others)).1
    {
      hide ReadDb, ExpungeDb, WalkDb, IdleDb, FetchList, SelectLines;
      if c.LoginOk? && phase == NonAuthenticated && c.id > 0 {
        phase, userId, limit, generation := Authenticated, c.id, c.limit, c.generation;
      } else if c.LogoutNow? {
        Logout();
      } else if c.SelectBox? {
        Select(c.folder, c.examine, others);
      } else if c.IdleWait? && (phase == Authenticated || phase == InMailbox) {
        WaitIdle(c.polls);
      } else if phase == InMailbox {
        if c.CloseBox? {
          Close();
        } else if c.ExpungeBox? {
          ExpungeMessages(false);
        } else if c.WalkBox? {
          WalkMessages(c.walk);
        }
      }
    }
  }

  lemma NoMarks(mails: seq<Mail>, marks: seq<Mark>)
    requires marks == []
    ensures SetAll(mails, marks) == mails
  {
  }

  // One more message of FETCH or STORE.
  lemma WalkOneMore(w: Walk, ms: seq<Msg>, readOnly: bool, i: nat, db: Db)
    requires i < |ms|
    ensures WalkOut(w, ms[..i + 1], readOnly) == WalkOut(w, ms[..i], readOnly) + WalkLines(w, ms[i], readOnly)
    ensures var d, m := WalkDb(w, ms[..i], readOnly, db), ms[i];
      WalkDb(w, ms[..i + 1], readOnly, db) ==
        if Writes(w, m, readOnly) then
          d.(mails := SetFlags(d.mails, m.mailId, WalkMsg(w, m, readOnly).flags), generation := d.generation + 1)
        else d
  {
    hide WalkLines, Writes, WalkMsg, SetFlags;
    assert ms[..i + 1][..i] == ms[..i];
    var m, marks := ms[i], WalkMarks(w, ms[..i], readOnly);
    if Writes(w, m, readOnly) {
      SetAllSnoc(db.mails, marks, (m.mailId, WalkMsg(w, m, readOnly).flags));
    } else {
      assert WalkMarks(w, ms[..i + 1], readOnly) == marks;
    }
  }

  lemma WalkAllIs(w: Walk, ms: seq<Msg>, readOnly: bool, list: seq<Msg>)
    requires |list| == |ms| && forall j :: 0 <= j < |ms| ==> list[j] == WalkMsg(w, ms[j], readOnly)
    ensures WalkAll(w, ms, readOnly) == list && (Numbered(ms) ==> Numbered(list))
  {
    assert forall j :: 0 <= j < |ms| ==> list[j].seqId == ms[j].seqId;
    hide WalkMsg;
    forall i | 0 <= i < |ms|
      ensures WalkAll(w, ms, readOnly)[i] == list[i]
    {
      WalkAllAt(w, ms, readOnly, i);
    }
  }

  lemma StepOf(s: Session, c: Command, e: Env, gen: int, list: Db, s1: Session, l1: seq<Line>)
    requires (s1, l1) == if s.userId > 0 && !SkipsRefresh(c) then Refresh(s, gen, list) else (s, [])
    ensures Step(s, c, e.(gen1 := gen, list1 := list)) == (Dispatch(s1, c, e).0, l1 + Dispatch(s1, c, e).1)
  {
  }

  lemma {:induction false} NothingDeleted(ms: seq<Msg>, k: int, mails: seq<Mail>)
    requires forall j :: 0 <= j < |ms| ==> !Deleted(ms[j]) && ms[j].seqId == k + j
    ensures Undeleted(ms, k) == ms && ExpungeLines(ms, k) == [] && Purge(ms, mails) == (mails, 0)
  {
    if ms != [] {
      NothingDeleted(ms[1..], k + 1, mails);
      assert ms == [ms[0].(seqId := k)] + ms[1..];
    }
  }
}
