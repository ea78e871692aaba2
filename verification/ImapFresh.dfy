/** Whether a list that has been read is still that of the folder. Every writer changes the
    rows first and raises the mailbox generation in a later query. */
module ImapFresh {
  import opened Options
  import opened ImapMessages
  import opened ImapDelta
  import opened ImapFetch
  import opened ImapSession

  // ----- the same mails have the same UIDs -----

  function UidSeq(ms: seq<Msg>): seq<int> {
    seq(|ms|, i requires 0 <= i < |ms| => ms[i].uid)
  }

  function UidsOf(t: Table, ids: set<int>): set<int>
    requires ids <= t.uids.Keys
  {
    set id | id in ids :: t.uids[id]
  }

  lemma {:induction false} ResolvedUids(t: Table, rows: seq<Row>)
    requires TableValid(t) && Joined(t, rows)
    ensures MailIds(rows) <= Resolve(t, rows).0.uids.Keys
    ensures Uids(Resolve(t, rows).1) == UidsOf(Resolve(t, rows).0, MailIds(rows))
    decreases |rows|
  {
    ResolveTable(t, rows);
    if rows != [] {
      RowUidKeeps(t, rows);
      var (t1, uid) := RowUid(t, rows[0]);
      ResolvedUids(t1, rows[1..]);
      ResolveTable(t1, rows[1..]);
      var ms := Resolve(t, rows).1;
      assert ms[1..] == Resolve(t1, rows[1..]).1;
      assert Resolve(t, rows).0.uids[rows[0].mailId] == uid;
    }
  }

  // Two sorted lists with the same UIDs agree.
  lemma {:induction false} SortedBySet(a: seq<Msg>, b: seq<Msg>)
    requires Ascending(a) && Ascending(b) && Uids(a) == Uids(b)
    ensures UidSeq(a) == UidSeq(b)
    decreases |a|
  {
    if a == [] || b == [] {
      assert a == b by {
        EmptyUids(a);
        EmptyUids(b);
      }
    } else {
      AboveHead(a[1..], a[0].uid);
      AboveHead(b[1..], b[0].uid);
      assert a[0].uid in Uids(b) && b[0].uid in Uids(a);
      assert a[0].uid == b[0].uid;
      assert Uids(a[1..]) == Uids(a) - {a[0].uid};
      assert Uids(b[1..]) == Uids(b) - {b[0].uid};
      SortedBySet(a[1..], b[1..]);
      assert forall i :: 0 < i < |a| ==> UidSeq(a)[i] == UidSeq(a[1..])[i - 1];
      assert forall i :: 0 < i < |b| ==> UidSeq(b)[i] == UidSeq(b[1..])[i - 1];
    }
  }

  lemma EmptyUids(ms: seq<Msg>)
    requires Uids(ms) == {}
    ensures ms == []
  {
    UidsOfMembers(ms);
  }

  /** Mails that are in a folder at two reads, with the UIDs of the first kept, are listed with
      the same UIDs in the same order, whatever else has changed. */
  lemma SameMailsSameUids(t: Table, rows: seq<Row>, t2: Table, rows2: seq<Row>, limit: nat)
    requires TableValid(t) && Joined(t, rows) && DistinctMails(rows)
    requires TableValid(t2) && Joined(t2, rows2) && DistinctMails(rows2)
    requires Extends(Resolve(t, rows).0, t2) && MailIds(rows) == MailIds(rows2)
    ensures UidSeq(Fetched(t, rows, limit)) == UidSeq(Fetched(t2, rows2, limit))
  {
    hide Resolve, Sort, Uids, Ascending, Number, Trim, UidSeq, UidsOf;
    var (t1, ms) := Resolve(t, rows);
    var (t3, ms2) := Resolve(t2, rows2);
    ResolveTable(t, rows);
    ResolveTable(t2, rows2);
    ResolvedUids(t, rows);
    ResolvedUids(t2, rows2);
    ExtendsTrans(t1, t2, t3);
    UidsKept(t1, t3, MailIds(rows));
    ResolveNoTwice(t, rows);
    ResolveNoTwice(t2, rows2);
    SortFacts(ms);
    SortFacts(ms2);
    SortedBySet(Sort(ms), Sort(ms2));
    TrimUidSeq(Sort(ms), Sort(ms2), limit);
  }

  lemma UidsKept(t: Table, t': Table, ids: set<int>)
    requires Extends(t, t') && ids <= t.uids.Keys
    ensures ids <= t'.uids.Keys && UidsOf(t, ids) == UidsOf(t', ids)
  {
    forall id | id in ids
      ensures id in t'.uids && t'.uids[id] == t.uids[id]
    {
      assert id in t.uids.Keys;
    }
    assert forall u :: u in UidsOf(t, ids) ==> u in UidsOf(t', ids);
    assert forall u :: u in UidsOf(t', ids) ==> u in UidsOf(t, ids);
  }

  lemma TrimUidSeq(a: seq<Msg>, b: seq<Msg>, limit: nat)
    requires UidSeq(a) == UidSeq(b)
    ensures UidSeq(Number(Trim(a, limit))) == UidSeq(Number(Trim(b, limit)))
  {
    assert |a| == |UidSeq(a)| == |UidSeq(b)| == |b|;
    assert forall i :: 0 <= i < |a| ==> a[i].uid == UidSeq(a)[i] == UidSeq(b)[i] == b[i].uid;
  }

  // ----- histories -----

  function FolderIds(mails: seq<Mail>, folder: int): set<int> {
    if mails == [] then {}
    else (if mails[0].folder == folder then {mails[0].mailId} else {}) + FolderIds(mails[1..], folder)
  }

  // Flags but for the seen bit, which every reading of a folder sets without a new generation.
  function Masked(flags: bv32): bv32 {
    flags & !FLAG_SEEN
  }

  // What a list shows of a folder: its mails and their flags.
  function FolderView(mails: seq<Mail>, folder: int): set<(int, bv32)> {
    if mails == [] then {}
    else
      (if mails[0].folder == folder then {(mails[0].mailId, Masked(mails[0].flags))} else {})
      + FolderView(mails[1..], folder)
  }

  lemma FirstsOfBoth<A, B>(x: set<(A, B)>, y: set<(A, B)>)
    ensures (set p | p in x + y :: p.0) == (set p | p in x :: p.0) + (set p | p in y :: p.0)
  {
    forall p | p in x + y
      ensures p.0 in (set p | p in x :: p.0) + (set p | p in y :: p.0)
    {
      assert p in x || p in y;
    }
    forall p | p in x || p in y
      ensures p.0 in set p | p in x + y :: p.0
    {
      assert p in x + y;
    }
  }

  lemma {:induction false} ViewIds(mails: seq<Mail>, folder: int)
    ensures FolderIds(mails, folder) == set p | p in FolderView(mails, folder) :: p.0
  {
    hide Masked;
    if mails != [] {
      var rest := FolderView(mails[1..], folder);
      ViewIds(mails[1..], folder);
      var head := if mails[0].folder == folder then {(mails[0].mailId, Masked(mails[0].flags))} else {};
      assert FolderView(mails, folder) == head + rest;
      FirstsOfBoth(head, rest);
      assert forall p :: p in head ==> p.0 == mails[0].mailId;
      if mails[0].folder == folder {
        assert (mails[0].mailId, Masked(mails[0].flags)) in head;
      }
    }
  }

  // Mail ids are a primary key.
  predicate DistinctIn(mails: seq<Mail>) {
    mails != [] ==> mails[0].mailId !in AllIds(mails[1..]) && DistinctIn(mails[1..])
  }

  function AllIds(mails: seq<Mail>): set<int> {
    if mails == [] then {} else {mails[0].mailId} + AllIds(mails[1..])
  }

  predicate DbValid(db: Db) {
    TableValid(db.uids) && DistinctIn(db.mails)
  }

  /** pending: the writers that have changed which mails are in the folder, or their flags, and
      have not yet raised the generation for it. */
  datatype Moment = Moment(db: Db, pending: set<int>)

  // A writer changes rows; a writer raises the generation; a reader hands out UIDs.
  datatype Event = Write(writer: int, mails: seq<Mail>) | Raise(writer: int) | Assign(uids: Table)

  predicate CanHappen(m: Moment, e: Event) {
    match e
    case Write(_, mails) => DistinctIn(mails)
    case Raise(_) => true
    case Assign(uids) => TableValid(uids) && Extends(m.db.uids, uids)
  }

  function Happens(folder: int, m: Moment, e: Event): Moment {
    match e
    case Write(w, mails) =>
      Moment(m.db.(mails := mails),
        if FolderView(mails, folder) == FolderView(m.db.mails, folder) then m.pending else m.pending + {w})
    case Raise(w) => Moment(m.db.(generation := m.db.generation + 1), m.pending - {w})
    case Assign(uids) => m.(db := m.db.(uids := uids))
  }

  predicate IsPast(folder: int, m: Moment, es: seq<Event>)
    decreases |es|
  {
    es == [] || (CanHappen(m, es[0]) && IsPast(folder, Happens(folder, m, es[0]), es[1..]))
  }

  function Then(folder: int, m: Moment, es: seq<Event>): Moment
    decreases |es|
  {
    if es == [] then m else Then(folder, Happens(folder, m, es[0]), es[1..])
  }

  // What stays between two moments.
  lemma {:induction false} Between(folder: int, m: Moment, es: seq<Event>)
    requires DbValid(m.db) && IsPast(folder, m, es)
    ensures var n := Then(folder, m, es);
      && DbValid(n.db) && Extends(m.db.uids, n.db.uids) && m.db.generation <= n.db.generation
      && (m.db.generation == n.db.generation ==> m.pending <= n.pending)
      && (m.db.generation == n.db.generation && n.pending == {} ==>
            FolderView(n.db.mails, folder) == FolderView(m.db.mails, folder))
    decreases |es|
  {
    hide FolderView, DistinctIn, TableValid;
    if es != [] {
      var h := Happens(folder, m, es[0]);
      Between(folder, h, es[1..]);
      ExtendsTrans(m.db.uids, h.db.uids, Then(folder, h, es[1..]).db.uids);
    }
  }

  lemma {:induction false} ThenSum(folder: int, m: Moment, a: seq<Event>, b: seq<Event>)
    ensures Then(folder, m, a + b) == Then(folder, Then(folder, m, a), b)
    ensures IsPast(folder, m, a + b) <==> IsPast(folder, m, a) && IsPast(folder, Then(folder, m, a), b)
    decreases |a|
  {
    if a == [] {
      assert a + b == b;
    } else {
      assert (a + b)[1..] == a[1..] + b;
      ThenSum(folder, Happens(folder, m, a[0]), a[1..], b);
    }
  }

  // ----- reading -----

  lemma {:induction false} RowsFacts(mails: seq<Mail>, t: Table, folder: int)
    requires DistinctIn(mails)
    ensures var rows := RowsOf(mails, t, folder);
      Joined(t, rows) && DistinctMails(rows) && MailIds(rows) == FolderIds(mails, folder) <= AllIds(mails)
  {
    if mails != [] {
      RowsFacts(mails[1..], t, folder);
      var rows, rest := RowsOf(mails, t, folder), RowsOf(mails[1..], t, folder);
      if mails[0].folder == folder {
        assert rows[1..] == rest;
        assert forall i :: 0 < i < |rows| ==> rows[i] == rest[i - 1];
      } else {
        assert rows == rest;
      }
    }
  }

  // The UID table once the list has been read: the reader hands out the UIDs it misses.
  function TableRead(db: Db, folder: int): Table {
    Resolve(db.uids, RowsOf(db.mails, db.uids, folder)).0
  }

  // UIDs and flags in order.
  function Shape(ms: seq<Msg>): seq<(int, bv32)> {
    seq(|ms|, i requires 0 <= i < |ms| => (ms[i].uid, Masked(ms[i].flags)))
  }

  predicate Current(msgs: seq<Msg>, db: Db, folder: int, limit: nat) {
    Shape(msgs) == Shape(FetchList(db, folder, limit))
  }

  lemma ShapeUids(a: seq<Msg>, b: seq<Msg>)
    requires Shape(a) == Shape(b)
    ensures UidSeq(a) == UidSeq(b)
  {
    hide Masked;
    assert |a| == |Shape(a)| == |Shape(b)| == |b|;
    assert forall i :: 0 <= i < |a| ==> a[i].uid == Shape(a)[i].0 == Shape(b)[i].0 == b[i].uid;
  }

  // ----- which mail a message stands for -----

  lemma {:induction false} ResolveKeeps(t: Table, rows: seq<Row>, j: nat)
    requires j < |rows|
    ensures |Resolve(t, rows).1| == |rows|
    ensures var m := Resolve(t, rows).1[j]; m.mailId == rows[j].mailId && m.flags == rows[j].flags && m.size == rows[j].size
    decreases |rows|
  {
    var (t1, uid) := RowUid(t, rows[0]);
    if j > 0 {
      ResolveKeeps(t1, rows[1..], j - 1);
    } else if |rows| > 1 {
      ResolveKeeps(t1, rows[1..], 0);
    }
  }

  lemma {:induction false} RowsView(mails: seq<Mail>, t: Table, folder: int, j: nat)
    requires j < |RowsOf(mails, t, folder)|
    ensures var r := RowsOf(mails, t, folder)[j]; (r.mailId, Masked(r.flags)) in FolderView(mails, folder)
  {
    hide Masked;
    var rest := RowsOf(mails[1..], t, folder);
    if mails[0].folder == folder {
      if j > 0 {
        assert RowsOf(mails, t, folder)[j] == rest[j - 1];
        RowsView(mails[1..], t, folder, j - 1);
      }
    } else {
      assert RowsOf(mails, t, folder) == rest;
      RowsView(mails[1..], t, folder, j);
    }
  }

  // A message of a list that has been fetched: its mail and its UID in the table.
  lemma FetchedFrom(t: Table, rows: seq<Row>, limit: nat, i: nat) returns (j: nat)
    requires TableValid(t) && Joined(t, rows) && i < |Fetched(t, rows, limit)|
    ensures var m := Fetched(t, rows, limit)[i];
      && j < |rows| && m.mailId == rows[j].mailId && m.flags == rows[j].flags && m.size == rows[j].size
      && m.mailId in Resolve(t, rows).0.uids && Resolve(t, rows).0.uids[m.mailId] == m.uid
  {
    hide Resolve, Sort, Joined;
    var ms := Resolve(t, rows).1;
    var sorted := Sort(ms);
    var kept := Trim(sorted, limit);
    var raw := kept[i];
    assert raw in sorted;
    SortMembers(ms);
    assert raw in multiset(sorted);
    assert raw in ms;
    ResolveFrom(t, rows);
    ResolveTable(t, rows);
    j :| 0 <= j < |ms| && ms[j] == raw;
    ResolveKeeps(t, rows, j);
  }

  lemma MessageView(db: Db, folder: int, limit: nat, i: nat)
    requires DbValid(db) && i < |FetchList(db, folder, limit)|
    ensures var m := FetchList(db, folder, limit)[i];
      && (m.mailId, Masked(m.flags)) in FolderView(db.mails, folder)
      && m.mailId in TableRead(db, folder).uids && TableRead(db, folder).uids[m.mailId] == m.uid
  {
    hide Resolve, Fetched, FolderView, RowsOf, Masked;
    RowsFacts(db.mails, db.uids, folder);
    var rows := RowsOf(db.mails, db.uids, folder);
    var j := FetchedFrom(db.uids, rows, limit, i);
    RowsView(db.mails, db.uids, folder, j);
  }

  lemma {:induction false} ViewFunctional(mails: seq<Mail>, folder: int, id: int, f: bv32, g: bv32)
    requires DistinctIn(mails) && (id, f) in FolderView(mails, folder) && (id, g) in FolderView(mails, folder)
    ensures f == g
  {
    hide Masked;
    ViewInside(mails[1..], folder);
    if (id, f) in FolderView(mails[1..], folder) && (id, g) in FolderView(mails[1..], folder) {
      ViewFunctional(mails[1..], folder, id, f, g);
    }
  }

  lemma {:induction false} ViewInside(mails: seq<Mail>, folder: int)
    ensures forall p :: p in FolderView(mails, folder) ==> p.0 in AllIds(mails)
  {
    hide Masked;
    if mails != [] {
      ViewInside(mails[1..], folder);
    }
  }

  /** The refresh: the generation is read at moment mg and the list at moment mf, which is
      later or the same; the reader then hands out the UIDs it misses. At any later moment
      at which the generation is still the same and no writer is between its change and its
      generation, the list is what reading the folder again would give: the same UIDs and,
      but for the seen bit, the same flags. */
  lemma RefreshedListIsCurrent(s: Session, mg: Moment, es: seq<Event>, es2: seq<Event>)
    requires DbValid(mg.db) && IsPast(s.selected, mg, es)
    requires s.phase == InMailbox && mg.db.generation != s.generation
    requires var mf := Then(s.selected, mg, es); IsPast(s.selected, mf, [Assign(TableRead(mf.db, s.selected))] + es2)
    ensures var mf := Then(s.selected, mg, es);
      var mt := Then(s.selected, mf, [Assign(TableRead(mf.db, s.selected))] + es2);
      var s' := Refresh(s, mg.db.generation, mf.db).0;
      mt.db.generation == s'.generation && mt.pending == {} ==> Current(s'.msgs, mt.db, s.selected, s.limit)
  {
    hide Current, Happens, DbValid, DeltaLines, FetchList, TableRead;
    Between(s.selected, mg, es);
    StillCurrent(s.selected, Then(s.selected, mg, es), es2, s.limit);
  }

  // The same UID stands for the same mail at both readings.
  lemma SameUidSameMail(db: Db, db2: Db, folder: int, limit: nat, i: nat)
    requires DbValid(db) && DbValid(db2) && Extends(TableRead(db, folder), db2.uids)
    requires i < |FetchList(db, folder, limit)| && i < |FetchList(db2, folder, limit)|
    requires FetchList(db, folder, limit)[i].uid == FetchList(db2, folder, limit)[i].uid
    ensures FetchList(db, folder, limit)[i].mailId == FetchList(db2, folder, limit)[i].mailId
  {
    hide Resolve, Fetched, FolderView, RowsOf, Masked, DistinctIn, FetchList;
    MessageView(db, folder, limit, i);
    MessageView(db2, folder, limit, i);
    TablesGrow(db, db2, folder);
  }

  lemma TablesGrow(db: Db, db2: Db, folder: int)
    requires DbValid(db) && DbValid(db2) && Extends(TableRead(db, folder), db2.uids)
    ensures TableValid(TableRead(db2, folder)) && Extends(TableRead(db, folder), TableRead(db2, folder))
  {
    hide Resolve, RowsOf;
    RowsFacts(db2.mails, db2.uids, folder);
    ResolveTable(db2.uids, RowsOf(db2.mails, db2.uids, folder));
    ExtendsTrans(TableRead(db, folder), db2.uids, TableRead(db2, folder));
  }

  /** A folder with the same mails and flags gives the same list, seen bits aside. */
  lemma SameViewSameShape(db: Db, db2: Db, folder: int, limit: nat)
    requires DbValid(db) && DbValid(db2) && Extends(TableRead(db, folder), db2.uids)
    requires FolderView(db.mails, folder) == FolderView(db2.mails, folder)
    ensures Shape(FetchList(db, folder, limit)) == Shape(FetchList(db2, folder, limit))
  {
    hide Resolve, Fetched, FolderView, FolderIds, Masked, DistinctIn, RowsOf;
    ViewIds(db.mails, folder);
    ViewIds(db2.mails, folder);
    RowsFacts(db.mails, db.uids, folder);
    RowsFacts(db2.mails, db2.uids, folder);
    SameMailsSameUids(db.uids, RowsOf(db.mails, db.uids, folder), db2.uids, RowsOf(db2.mails, db2.uids, folder), limit);
    SameUidsSameShape(db, db2, folder, limit);
  }

  lemma SameUidsSameShape(db: Db, db2: Db, folder: int, limit: nat)
    requires DbValid(db) && DbValid(db2) && Extends(TableRead(db, folder), db2.uids)
    requires FolderView(db.mails, folder) == FolderView(db2.mails, folder)
    requires UidSeq(FetchList(db, folder, limit)) == UidSeq(FetchList(db2, folder, limit))
    ensures Shape(FetchList(db, folder, limit)) == Shape(FetchList(db2, folder, limit))
  {
    hide FetchList, TableRead, FolderView, Masked, DistinctIn;
    var a, b := FetchList(db, folder, limit), FetchList(db2, folder, limit);
    assert |a| == |UidSeq(a)| == |UidSeq(b)| == |b|;
    forall i | 0 <= i < |a|
      ensures Shape(a)[i] == Shape(b)[i]
    {
      assert UidSeq(a)[i] == UidSeq(b)[i];
      SameUidSameMail(db, db2, folder, limit, i);
      MessageView(db, folder, limit, i);
      MessageView(db2, folder, limit, i);
      ViewFunctional(db.mails, folder, a[i].mailId, Masked(a[i].flags), Masked(b[i].flags));
    }
  }

  // From one reading of the list on, with the generation unchanged and nothing pending.
  lemma StillCurrent(folder: int, m: Moment, es: seq<Event>, limit: nat)
    requires DbValid(m.db) && IsPast(folder, m, [Assign(TableRead(m.db, folder))] + es)
    ensures var n := Then(folder, m, [Assign(TableRead(m.db, folder))] + es);
      && DbValid(n.db) && Extends(TableRead(m.db, folder), n.db.uids) && m.db.generation <= n.db.generation
      && (FolderView(m.db.mails, folder) == FolderView(n.db.mails, folder) ==>
            Current(FetchList(m.db, folder, limit), n.db, folder, limit))
      && (m.db.generation == n.db.generation && n.pending == {} ==>
            FolderView(m.db.mails, folder) == FolderView(n.db.mails, folder))
  {
    hide FolderView, DistinctIn, Shape, Resolve, Fetched, FetchList, TableRead;
    var a := Assign(TableRead(m.db, folder));
    assert ([a] + es)[1..] == es;
    var h := Happens(folder, m, a);
    Between(folder, m, [a] + es);
    Between(folder, h, es);
    var n := Then(folder, h, es);
    if FolderView(m.db.mails, folder) == FolderView(n.db.mails, folder) {
      SameViewSameShape(m.db, n.db, folder, limit);
    }
  }

  lemma {:induction false} SameUidSeq(a: seq<Msg>, b: seq<Msg>)
    requires UidSeq(a) == UidSeq(b)
    ensures Uids(a) == Uids(b)
  {
    assert |a| == |UidSeq(a)| == |UidSeq(b)| == |b|;
    forall i | 0 <= i < |a|
      ensures a[i].uid == b[i].uid
    {
      assert UidSeq(a)[i] == UidSeq(b)[i];
    }
    NumberKeepsUids(a, b);
  }

  // Without a limit every mail of the folder is listed.
  lemma InList(db: Db, folder: int, id: int) returns (i: nat)
    requires DbValid(db) && id in FolderIds(db.mails, folder)
    ensures i < |FetchList(db, folder, 0)| && FetchList(db, folder, 0)[i].mailId == id
  {
    hide Resolve, Sort, FolderIds, RowsOf;
    RowsFacts(db.mails, db.uids, folder);
    var rows := RowsOf(db.mails, db.uids, folder);
    var m := MailHolder(db.uids, rows, id);
    var ms := Resolve(db.uids, rows).1;
    SortMembers(ms);
    assert m in multiset(ms);
    assert m in Sort(ms);
    i :| 0 <= i < |Sort(ms)| && Sort(ms)[i] == m;
  }

  lemma SameShapeView(db: Db, db2: Db, folder: int)
    requires DbValid(db) && DbValid(db2) && Extends(TableRead(db, folder), db2.uids)
    requires Shape(FetchList(db, folder, 0)) == Shape(FetchList(db2, folder, 0))
    ensures FolderView(db.mails, folder) <= FolderView(db2.mails, folder)
  {
    hide FetchList, TableRead, FolderView, FolderIds, Masked, DistinctIn;
    var a, b := FetchList(db, folder, 0), FetchList(db2, folder, 0);
    assert |a| == |Shape(a)| == |Shape(b)| == |b|;
    ViewIds(db.mails, folder);
    forall p | p in FolderView(db.mails, folder)
      ensures p in FolderView(db2.mails, folder)
    {
      var i := InList(db, folder, p.0);
      assert Shape(a)[i] == Shape(b)[i];
      SameUidSameMail(db, db2, folder, 0, i);
      MessageView(db, folder, 0, i);
      MessageView(db2, folder, 0, i);
      ViewFunctional(db.mails, folder, p.0, p.1, Masked(a[i].flags));
    }
  }

  // The same the other way round: every mail of the later folder was listed before.
  lemma SameShapeBack(db: Db, db2: Db, folder: int)
    requires DbValid(db) && DbValid(db2) && Extends(TableRead(db, folder), db2.uids)
    requires Shape(FetchList(db, folder, 0)) == Shape(FetchList(db2, folder, 0))
    ensures FolderView(db2.mails, folder) <= FolderView(db.mails, folder)
  {
    hide FetchList, TableRead, FolderView, FolderIds, Masked, DistinctIn;
    var a, b := FetchList(db, folder, 0), FetchList(db2, folder, 0);
    assert |a| == |Shape(a)| == |Shape(b)| == |b|;
    ViewIds(db2.mails, folder);
    forall p | p in FolderView(db2.mails, folder)
      ensures p in FolderView(db.mails, folder)
    {
      var i := InList(db2, folder, p.0);
      assert Shape(a)[i] == Shape(b)[i];
      SameUidSameMail(db, db2, folder, 0, i);
      MessageView(db, folder, 0, i);
      MessageView(db2, folder, 0, i);
      ViewFunctional(db2.mails, folder, p.0, p.1, Masked(b[i].flags));
    }
  }

  // The list that was read is current at a later moment exactly if the folder looks the same.
  lemma CurrentIff(folder: int, m: Moment, es: seq<Event>)
    requires DbValid(m.db) && IsPast(folder, m, [Assign(TableRead(m.db, folder))] + es)
    ensures var n := Then(folder, m, [Assign(TableRead(m.db, folder))] + es);
      Current(FetchList(m.db, folder, 0), n.db, folder, 0) <==>
        FolderView(m.db.mails, folder) == FolderView(n.db.mails, folder)
  {
    hide FolderView, DistinctIn, Shape, FetchList, TableRead, DbValid;
    StillCurrent(folder, m, es, 0);
    var n := Then(folder, m, [Assign(TableRead(m.db, folder))] + es);
    if Current(FetchList(m.db, folder, 0), n.db, folder, 0) {
      SameShapeView(m.db, n.db, folder);
      SameShapeBack(m.db, n.db, folder);
    }
  }

  /** SELECT reads the list first, at moment mf, and the generation later, at moment mg. At any
      moment from then on at which the generation is still the same and no writer is between
      its change and its generation, the list is that of the folder, seen bits aside, if the
      folder had the same mails and flags at both readings; and, without a limit, only if. */
  lemma SelectedListIsCurrent(s: Session, folder: int, mf: Moment, es: seq<Event>, es2: seq<Event>, e: Env)
    requires (s.phase == Authenticated || s.phase == InMailbox) && DbValid(mf.db)
    requires IsPast(folder, mf, [Assign(TableRead(mf.db, folder))] + es + es2)
    requires var mg := Then(folder, mf, [Assign(TableRead(mf.db, folder))] + es);
      && e.list2 == mf.db && e.gen2 == mg.db.generation == Then(folder, mg, es2).db.generation
      && Then(folder, mg, es2).pending == {}
    ensures var mg := Then(folder, mf, [Assign(TableRead(mf.db, folder))] + es);
      var msgs := Dispatch(s, SelectBox(Some(folder), false), e).0.msgs;
      var same := FolderView(mf.db.mails, folder) == FolderView(mg.db.mails, folder);
      && (same ==> Current(msgs, Then(folder, mg, es2).db, folder, s.limit))
      && (s.limit == 0 ==> (Current(msgs, Then(folder, mg, es2).db, folder, s.limit) <==> same))
  {
    hide Current, Happens, FetchList, TableRead, FolderView, DistinctIn, SelectLines;
    var first := [Assign(TableRead(mf.db, folder))];
    ThenSum(folder, mf, first + es, es2);
    assert first + es + es2 == first + (es + es2);
    var mg := Then(folder, mf, first + es);
    Between(folder, mf, first + es);
    Between(folder, mg, es2);
    StillCurrent(folder, mf, es + es2, s.limit);
    if s.limit == 0 {
      CurrentIff(folder, mf, es + es2);
    }
  }

  // ----- examples -----

  // One mail with a UID, in the folder or not yet.
  function Arriving(there: bool, generation: int): Db {
    Db(if there then [Mail(0, 7, 0, 10)] else [], Table(map[7 := 1], 2), generation, 0)
  }

  lemma ArrivingFacts(generation: int)
    ensures FetchList(Arriving(false, generation), 0, 0) == [] && |FetchList(Arriving(true, generation), 0, 0)| == 1
    ensures TableRead(Arriving(false, generation), 0) == Table(map[7 := 1], 2)
    ensures FolderView([], 0) == {} != FolderView([Mail(0, 7, 0, 10)], 0) && DistinctIn([Mail(0, 7, 0, 10)])
    ensures TableValid(Table(map[7 := 1], 2)) && Extends(Table(map[7 := 1], 2), Table(map[7 := 1], 2))
  {
    var t := Table(map[7 := 1], 2);
    var r := Row(7, 0, 10, Some(1));
    assert RowsOf([Mail(0, 7, 0, 10)], t, 0) == [r] + RowsOf([], t, 0) == [r] + [];
    ResolveStep(t, r, [], Msg(1, 7, 0, 0, 10));
    SortAscending([Msg(1, 7, 0, 0, 10)]);
    assert [r] + [] == [r];
    assert Resolve(t, []) == (t, []);
    assert [Msg(1, 7, 0, 0, 10)] + [] == [Msg(1, 7, 0, 0, 10)];
  }

  lemma FirstEvent(folder: int, m: Moment, e: Event, es: seq<Event>, n: Moment)
    requires CanHappen(m, e) && Happens(folder, m, e) == n
    ensures IsPast(folder, m, [e] + es) <==> IsPast(folder, n, es)
    ensures Then(folder, m, [e] + es) == Then(folder, n, es)
    ensures IsPast(folder, n, []) && Then(folder, n, []) == n
  {
    assert ([e] + es)[1..] == es;
  }

  /** A mail that arrives between the two reads of SELECT stays unannounced, although its
      writer has raised the generation. */
  lemma SelectMissesArrival()
    ensures var mf := Moment(Arriving(false, 5), {});
      var es := [Assign(TableRead(mf.db, 0)), Write(1, [Mail(0, 7, 0, 10)]), Raise(1)];
      var s := Session(Authenticated, 1, false, 0, 0, false, 0, []);
      && IsPast(0, mf, es) && Then(0, mf, es) == Moment(Arriving(true, 6), {})
      && var s' := Dispatch(s, SelectBox(Some(0), false), Env(0, mf.db, mf.db, 6)).0;
         s'.msgs == [] && |FetchList(Arriving(true, 6), 0, 0)| == 1 && Refresh(s', 6, Arriving(true, 6)) == (s', [])
  {
    hide FetchList, FolderView, DistinctIn, TableRead;
    ArrivingFacts(5);
    ArrivingFacts(6);
    var mf, m2 := Moment(Arriving(false, 5), {}), Moment(Arriving(true, 5), {1});
    var es := [Assign(TableRead(mf.db, 0)), Write(1, [Mail(0, 7, 0, 10)]), Raise(1)];
    var m3 := Moment(Arriving(true, 6), {});
    FirstEvent(0, m2, Raise(1), [], m3);
    FirstEvent(0, mf, es[1], [Raise(1)], m2);
    FirstEvent(0, mf, es[0], [es[1], Raise(1)], mf);
    assert [es[0]] + [es[1], Raise(1)] == es && [es[1]] + [Raise(1)] == [es[1], Raise(1)] && [Raise(1)] + [] == [Raise(1)];
  }

  /** Between a writer's change and its raising of the generation a list can be out of date
      although the generation is unchanged. */
  lemma PendingWriteUnseen()
    ensures var mg := Moment(Arriving(false, 5), {});
      var es := [Assign(TableRead(mg.db, 0)), Write(1, [Mail(0, 7, 0, 10)])];
      && IsPast(0, mg, es) && Then(0, mg, es) == Moment(Arriving(true, 5), {1})
      && !Current(FetchList(mg.db, 0, 0), Then(0, mg, es).db, 0, 0)
  {
    hide FetchList, FolderView, DistinctIn, TableRead;
    ArrivingFacts(5);
    var mg, m2 := Moment(Arriving(false, 5), {}), Moment(Arriving(true, 5), {1});
    var es := [Assign(TableRead(mg.db, 0)), Write(1, [Mail(0, 7, 0, 10)])];
    FirstEvent(0, mg, es[1], [], m2);
    FirstEvent(0, mg, es[0], [es[1]], mg);
    assert [es[0]] + [es[1]] == es && [es[1]] + [] == [es[1]];
    assert |Shape(FetchList(Arriving(true, 5), 0, 0))| == 1;
  }
}
