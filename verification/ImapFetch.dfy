/** The UID table and the message list read from the database. */
module ImapFetch {
  import opened Options
  import opened ImapMessages
  import opened ImapDelta

  // bm60_bms_imapuid: the UID of each mail, handed out by an auto-increment column.
  datatype Table = Table(uids: map<int, int>, next: int)

  predicate TableValid(t: Table) {
    && t.next >= 1
    && (forall id :: id in t.uids ==> 1 <= t.uids[id] < t.next)
    && (forall a, b :: a in t.uids && b in t.uids && t.uids[a] == t.uids[b] ==> a == b)
  }

  function AddUid(t: Table, mailId: int): (Table, int) {
    var uid := if mailId in t.uids then t.uids[mailId] else 0;
    if uid != 0 then (t, uid)
    else (Table(t.uids[mailId := t.next], t.next + 1), t.next)
  }

  // What any later table has kept of an earlier one.
  predicate Extends(t: Table, t': Table) {
    && t.next <= t'.next
    && (forall id :: id in t.uids ==> id in t'.uids && t'.uids[id] == t.uids[id])
    && (forall id :: id in t'.uids && id !in t.uids ==> t'.uids[id] >= t.next)
  }

  lemma AddUidKeeps(t: Table, mailId: int)
    requires TableValid(t)
    ensures var (t', uid) := AddUid(t, mailId);
      && TableValid(t') && Extends(t, t') && mailId in t'.uids && t'.uids[mailId] == uid
      && t'.uids.Keys == t.uids.Keys + {mailId}
  {
  }

  function AddUids(t: Table, ids: seq<int>): Table
    decreases |ids|
  {
    if ids == [] then t else AddUids(AddUid(t, ids[0]).0, ids[1..])
  }

  /** Over every run of AddUID calls a UID never changes, no two mails share one, and every
      UID handed out later is higher than all earlier ones. */
  lemma {:induction false} UidsPermanentAndRising(t: Table, ids: seq<int>)
    requires TableValid(t)
    ensures var t' := AddUids(t, ids);
      TableValid(t') && Extends(t, t') && t'.uids.Keys == t.uids.Keys + (set id | id in ids)
    decreases |ids|
  {
    if ids == [] {
      assert t.uids.Keys == t.uids.Keys + (set id | id in ids);
    } else {
      AddUidKeeps(t, ids[0]);
      var t1 := AddUid(t, ids[0]).0;
      UidsPermanentAndRising(t1, ids[1..]);
      var t2 := AddUids(t1, ids[1..]);
      ExtendsTrans(t, t1, t2);
      assert ids == [ids[0]] + ids[1..];
      assert (set id | id in ids) == {ids[0]} + (set id | id in ids[1..]);
      assert t2.uids.Keys == t.uids.Keys + (set id | id in ids);
    }
  }

  class UidTable {
    var uids: map<int, int>
    var next: int

    function State(): Table
      reads this
    {
      Table(uids, next)
    }

    constructor (t: Table)
      ensures State() == t
    {
      uids, next := t.uids, t.next;
    }

    method AddUID(mailId: int) returns (uid: int)
      modifies this
      ensures (State(), uid) == AddUid(old(State()), mailId)
    {
      uid := 0;
      if mailId in uids {
        uid := uids[mailId];
      }
      if uid == 0 {
        uids := uids[mailId := next];
        uid := next;
        next := next + 1;
      }
    }
  }

  // One row of the SELECT; uid is what the LEFT JOIN found when the query ran.
  datatype Row = Row(mailId: int, flags: bv32, size: nat, uid: Option<int>)

  function RowUid(t: Table, r: Row): (Table, int) {
    if r.uid.Some? then (t, r.uid.value) else AddUid(t, r.mailId)
  }

  function Resolve(t: Table, rows: seq<Row>): (Table, seq<Msg>)
    decreases |rows|
  {
    if rows == [] then (t, [])
    else
      var r := rows[0];
      var (t1, uid) := RowUid(t, r);
      var (t2, rest) := Resolve(t1, rows[1..]);
      (t2, [Msg(uid, r.mailId, 0, r.flags, r.size)] + rest)
  }

  function MailIds(rows: seq<Row>): set<int> {
    if rows == [] then {} else {rows[0].mailId} + MailIds(rows[1..])
  }

  // Mail ids are a primary key.
  predicate DistinctMails(rows: seq<Row>) {
    rows != [] ==> rows[0].mailId !in MailIds(rows[1..]) && DistinctMails(rows[1..])
  }

  // A UID seen by the join is the one in the table: the table only grows.
  predicate Joined(t: Table, rows: seq<Row>) {
    forall i :: 0 <= i < |rows| && rows[i].uid.Some? ==>
      rows[i].mailId in t.uids && t.uids[rows[i].mailId] == rows[i].uid.value
  }

  function Insert(m: Msg, ms: seq<Msg>): seq<Msg> {
    if ms == [] || m.uid <= ms[0].uid then [m] + ms else [ms[0]] + Insert(m, ms[1..])
  }

  function Sort(ms: seq<Msg>): seq<Msg> {
    if ms == [] then [] else Insert(ms[0], Sort(ms[1..]))
  }

  // The limit: when it is exceeded, one message fewer than the limit stays.
  function Trim(ms: seq<Msg>, limit: nat): (r: seq<Msg>)
    ensures |r| == if limit != 0 && |ms| > limit then limit - 1 else |ms|
    ensures r == ms[|ms| - |r|..]
  {
    if limit != 0 && |ms| > limit then ms[|ms| - limit + 1..] else ms
  }

  function Number(ms: seq<Msg>): (r: seq<Msg>)
    ensures Numbered(r) && |r| == |ms|
  {
    seq(|ms|, i requires 0 <= i < |ms| => ms[i].(seqId := i + 1))
  }

  function Fetched(t: Table, rows: seq<Row>, limit: nat): seq<Msg> {
    Number(Trim(Sort(Resolve(t, rows).1), limit))
  }

  // ----- the list is sorted, complete and numbered -----

  predicate NoTwice(ms: seq<Msg>) {
    ms != [] ==> ms[0].uid !in Uids(ms[1..]) && NoTwice(ms[1..])
  }

  predicate FromTable(t: Table, ms: seq<Msg>, ids: set<int>) {
    forall m :: m in ms ==> m.mailId in ids && m.mailId in t.uids && t.uids[m.mailId] == m.uid
  }

  lemma {:induction false} UidIndex(ms: seq<Msg>, u: int) returns (i: nat)
    requires u in Uids(ms)
    ensures i < |ms| && ms[i].uid == u
  {
    if ms[0].uid == u {
      i := 0;
    } else {
      i := UidIndex(ms[1..], u);
      i := i + 1;
    }
  }

  lemma RowUidKeeps(t: Table, rows: seq<Row>)
    requires rows != [] && TableValid(t) && Joined(t, rows)
    ensures var (t1, uid) := RowUid(t, rows[0]);
      && TableValid(t1) && Extends(t, t1) && rows[0].mailId in t1.uids && t1.uids[rows[0].mailId] == uid
      && t1.uids.Keys == t.uids.Keys + {rows[0].mailId} && Joined(t1, rows[1..])
  {
    AddUidKeeps(t, rows[0].mailId);
    var t1 := RowUid(t, rows[0]).0;
    assert rows[0].uid.Some? ==> t.uids.Keys == t.uids.Keys + {rows[0].mailId};
    forall i | 0 <= i < |rows| - 1 && rows[1..][i].uid.Some?
      ensures rows[1..][i].mailId in t1.uids && t1.uids[rows[1..][i].mailId] == rows[1..][i].uid.value
    {
      assert rows[1..][i] == rows[i + 1];
    }
  }

  lemma ExtendsTrans(a: Table, b: Table, c: Table)
    requires Extends(a, b) && Extends(b, c)
    ensures Extends(a, c)
  {
    forall id | id in c.uids && id !in a.uids
      ensures c.uids[id] >= a.next
    {
      if id in b.uids {
        assert b.uids[id] >= a.next;
      }
    }
  }

  lemma {:induction false} ResolveTable(t: Table, rows: seq<Row>)
    requires TableValid(t) && Joined(t, rows)
    ensures var (t', ms) := Resolve(t, rows);
      TableValid(t') && Extends(t, t') && t'.uids.Keys == t.uids.Keys + MailIds(rows) && |ms| == |rows|
    decreases |rows|
  {
    if rows == [] {
      assert t.uids.Keys == t.uids.Keys + MailIds(rows);
    } else {
      RowUidKeeps(t, rows);
      var t1 := RowUid(t, rows[0]).0;
      ResolveTable(t1, rows[1..]);
      ExtendsTrans(t, t1, Resolve(t1, rows[1..]).0);
    }
  }

  lemma {:induction false} ResolveFrom(t: Table, rows: seq<Row>)
    requires TableValid(t) && Joined(t, rows)
    ensures FromTable(Resolve(t, rows).0, Resolve(t, rows).1, MailIds(rows))
    decreases |rows|
  {
    if rows != [] {
      RowUidKeeps(t, rows);
      var t1 := RowUid(t, rows[0]).0;
      ResolveTable(t1, rows[1..]);
      ResolveFrom(t1, rows[1..]);
      var ms := Resolve(t, rows).1;
      assert ms == [ms[0]] + Resolve(t1, rows[1..]).1;
    }
  }

  lemma {:induction false} ResolveNoTwice(t: Table, rows: seq<Row>)
    requires TableValid(t) && Joined(t, rows) && DistinctMails(rows)
    ensures NoTwice(Resolve(t, rows).1)
    decreases |rows|
  {
    if rows != [] {
      RowUidKeeps(t, rows);
      var (t1, uid) := RowUid(t, rows[0]);
      ResolveTable(t1, rows[1..]);
      ResolveFrom(t1, rows[1..]);
      ResolveNoTwice(t1, rows[1..]);
      var (t2, rest) := Resolve(t1, rows[1..]);
      assert Resolve(t, rows).1[1..] == rest;
      if uid in Uids(rest) {
        var i := UidIndex(rest, uid);
        assert false;
      }
    }
  }

  lemma {:induction false} InsertAscends(m: Msg, ms: seq<Msg>)
    requires Ascending(ms) && m.uid !in Uids(ms)
    ensures Ascending(Insert(m, ms)) && Uids(Insert(m, ms)) == {m.uid} + Uids(ms)
    ensures |Insert(m, ms)| == |ms| + 1
  {
    if ms == [] || m.uid <= ms[0].uid {
      assert ([m] + ms)[1..] == ms;
    } else {
      InsertAscends(m, ms[1..]);
      var rest := Insert(m, ms[1..]);
      assert Insert(m, ms)[1..] == rest;
      AboveHead(ms[1..], ms[0].uid);
      UidsOfMembers(rest);
      assert forall i :: 0 <= i < |rest| ==> ms[0].uid < rest[i].uid;
    }
  }

  lemma {:induction false} InsertMembers(m: Msg, ms: seq<Msg>)
    ensures multiset(Insert(m, ms)) == multiset([m]) + multiset(ms)
  {
    if ms != [] && m.uid > ms[0].uid {
      InsertMembers(m, ms[1..]);
      assert ms == [ms[0]] + ms[1..];
    }
  }

  lemma {:induction false} UidsOfMembers(ms: seq<Msg>)
    ensures forall i :: 0 <= i < |ms| ==> ms[i].uid in Uids(ms)
  {
    if ms != [] {
      UidsOfMembers(ms[1..]);
    }
  }

  lemma {:induction false} SortFacts(ms: seq<Msg>)
    requires NoTwice(ms)
    ensures Ascending(Sort(ms)) && Uids(Sort(ms)) == Uids(ms) && |Sort(ms)| == |ms|
  {
    if ms != [] {
      SortFacts(ms[1..]);
      InsertAscends(ms[0], Sort(ms[1..]));
    }
  }

  lemma {:induction false} SortMembers(ms: seq<Msg>)
    ensures multiset(Sort(ms)) == multiset(ms)
  {
    if ms != [] {
      SortMembers(ms[1..]);
      InsertMembers(ms[0], Sort(ms[1..]));
      assert ms == [ms[0]] + ms[1..];
    }
  }

  lemma {:induction false} NumberKeepsUids(ms: seq<Msg>, rs: seq<Msg>)
    requires |ms| == |rs| && forall i :: 0 <= i < |ms| ==> ms[i].uid == rs[i].uid
    ensures Uids(rs) == Uids(ms)
  {
    if ms != [] {
      NumberKeepsUids(ms[1..], rs[1..]);
    }
  }

  lemma SplitAscending(ms: seq<Msg>, n: nat)
    requires Ascending(ms) && n <= |ms|
    ensures Ascending(ms[n..]) && Uids(ms) == Uids(ms[..n]) + Uids(ms[n..])
    ensures forall u, v :: u in Uids(ms[..n]) && v in Uids(ms[n..]) ==> u < v
  {
    hide Uids;
    UidsAppend(ms[..n], ms[n..]);
    assert ms == ms[..n] + ms[n..];
    forall u, v | u in Uids(ms[..n]) && v in Uids(ms[n..])
      ensures u < v
    {
      var i := UidIndex(ms[..n], u);
      var j := UidIndex(ms[n..], v);
      assert ms[i].uid < ms[n + j].uid;
    }
  }

  lemma TrimFacts(sorted: seq<Msg>, limit: nat)
    requires Ascending(sorted)
    ensures var kept := Trim(sorted, limit);
      && Ascending(kept) && Uids(kept) <= Uids(sorted)
      && (|kept| == |sorted| ==> Uids(kept) == Uids(sorted))
      && (forall u, v :: u in Uids(sorted) && u !in Uids(kept) && v in Uids(kept) ==> u < v)
  {
    var kept := Trim(sorted, limit);
    var n := |sorted| - |kept|;
    SplitAscending(sorted, n);
    assert kept == sorted[n..];
    if n == 0 {
      assert sorted[..n] == [];
    }
  }

  /** Whatever the rows are, the list is strictly ascending in UID and numbered from one;
      without a limit it holds exactly the UIDs of the rows, and over the limit it is
      the newest limit - 1 of them. */
  lemma FetchedFacts(t: Table, rows: seq<Row>, limit: nat)
    requires TableValid(t) && Joined(t, rows) && DistinctMails(rows)
    ensures var ms, list := Resolve(t, rows).1, Fetched(t, rows, limit);
      && Ascending(list) && Numbered(list) && Uids(list) <= Uids(ms)
      && |list| == (if limit != 0 && |rows| > limit then limit - 1 else |rows|)
      && (|list| == |rows| ==> Uids(list) == Uids(ms))
      && (forall u, v :: u in Uids(ms) && u !in Uids(list) && v in Uids(list) ==> u < v)
  {
    ResolveTable(t, rows);
    ResolveNoTwice(t, rows);
    var ms := Resolve(t, rows).1;
    SortFacts(ms);
    TrimFacts(Sort(ms), limit);
    var kept := Trim(Sort(ms), limit);
    NumberKeepsUids(kept, Number(kept));
  }

  lemma {:induction false} UidsAppend(a: seq<Msg>, b: seq<Msg>)
    ensures Uids(a + b) == Uids(a) + Uids(b)
  {
    if a == [] {
      assert a + b == b;
    } else {
      assert (a + b)[1..] == a[1..] + b;
      UidsAppend(a[1..], b);
    }
  }

  // ----- two reads of one folder -----

  // Of the messages that were in the folder at the first read, only such as were listed then
  // are listed at the second: none comes back from below the limit.
  predicate NoneResurfaces(before: set<int>, was: set<int>, now: set<int>) {
    now * before <= was
  }

  /** Between two reads of a folder, with the same limit and every mail that is new in the
      folder new to the UID table too, ReportDelta expunges exactly the messages that left the
      list if and only if no message comes back from below the limit or none stays at all. */
  lemma ArrivalsExpungeExactly(t: Table, rows: seq<Row>, t2: Table, rows2: seq<Row>, limit: nat)
    requires TableValid(t) && Joined(t, rows) && DistinctMails(rows)
    requires Extends(Resolve(t, rows).0, t2)
    requires TableValid(t2) && Joined(t2, rows2) && DistinctMails(rows2)
    requires forall id :: id in MailIds(rows2) ==> id in MailIds(rows) || id !in Resolve(t, rows).0.uids
    ensures var was, now := Uids(Fetched(t, rows, limit)), Uids(Fetched(t2, rows2, limit));
      Uids(Gone(Fetched(t, rows, limit), Fetched(t2, rows2, limit))) == was - now <==>
        (was !! now || NoneResurfaces(Uids(Resolve(t, rows).1), was, now))
    ensures limit == 0 || |rows| <= limit ==>
      NoneResurfaces(Uids(Resolve(t, rows).1), Uids(Fetched(t, rows, limit)), Uids(Fetched(t2, rows2, limit)))
  {
    hide Fetched, Gone, Resolve, Uids, Ascending, Numbered, AddedAbove, NoneResurfaces;
    FetchedFacts(t, rows, limit);
    FetchedFacts(t2, rows2, limit);
    var was, now := Uids(Fetched(t, rows, limit)), Uids(Fetched(t2, rows2, limit));
    var before := Uids(Resolve(t, rows).1);
    ExpungedExactly(Fetched(t, rows, limit), Fetched(t2, rows2, limit));
    forall u, v | u in now && u !in before && v in before
      ensures v < u
    {
      ArrivalAbove(t, rows, t2, rows2, u, v);
    }
    ResurfacingBreaks(before, was, now);
  }

  lemma ResurfacingBreaks(before: set<int>, was: set<int>, now: set<int>)
    requires was <= before && forall u, v :: u in before && u !in was && v in was ==> u < v
    requires forall u, v :: u in now && u !in before && v in before ==> v < u
    ensures AddedAbove(was, now) <==> was !! now || NoneResurfaces(before, was, now)
    ensures before == was ==> NoneResurfaces(before, was, now)
  {
    if v :| v in was && v in now {
      forall u | u in now * before && AddedAbove(was, now)
        ensures u in was
      {
        assert u !in was ==> u < v;
      }
      assert NoneResurfaces(before, was, now) ==> AddedAbove(was, now);
    } else {
      assert forall v :: v in was ==> v !in now;
    }
  }

  lemma ArrivalAbove(t: Table, rows: seq<Row>, t2: Table, rows2: seq<Row>, u: int, v: int)
    requires TableValid(t) && Joined(t, rows)
    requires Extends(Resolve(t, rows).0, t2)
    requires TableValid(t2) && Joined(t2, rows2)
    requires forall id :: id in MailIds(rows2) ==> id in MailIds(rows) || id !in Resolve(t, rows).0.uids
    requires u in Uids(Resolve(t2, rows2).1) && u !in Uids(Resolve(t, rows).1) && v in Uids(Resolve(t, rows).1)
    ensures v < u
  {
    ResolveTable(t, rows);
    ResolveTable(t2, rows2);
    ResolveFrom(t, rows);
    ResolveFrom(t2, rows2);
    var t1, t3 := Resolve(t, rows).0, Resolve(t2, rows2).0;
    ExtendsTrans(t1, t2, t3);
    var i := UidIndex(Resolve(t2, rows2).1, u);
    var j := UidIndex(Resolve(t, rows).1, v);
    var a, b := Resolve(t2, rows2).1[i], Resolve(t, rows).1[j];
    if a.mailId in MailIds(rows) {
      var c := MailHolder(t, rows, a.mailId);
      UidsOfMembers(Resolve(t, rows).1);
      assert false;
    }
  }

  lemma {:induction false} MailHolder(t: Table, rows: seq<Row>, id: int) returns (m: Msg)
    requires id in MailIds(rows)
    ensures m in Resolve(t, rows).1 && m.mailId == id
    decreases |rows|
  {
    if rows[0].mailId == id {
      m := Resolve(t, rows).1[0];
    } else {
      m := MailHolder(RowUid(t, rows[0]).0, rows[1..], id);
    }
  }

  lemma ExampleResolved() returns (t: Table, r1: Row, r2: Row, r3: Row)
    ensures t == Table(map[1 := 1, 2 := 2, 3 := 3], 4)
    ensures r1 == Row(1, 0, 0, Some(1)) && r2 == Row(2, 0, 0, Some(2)) && r3 == Row(3, 0, 0, Some(3))
    ensures Resolve(t, [r1, r2, r3]).1 == [Msg(1, 1, 0, 0, 0), Msg(2, 2, 0, 0, 0), Msg(3, 3, 0, 0, 0)]
    ensures Resolve(t, [r1, r3]).1 == [Msg(1, 1, 0, 0, 0), Msg(3, 3, 0, 0, 0)]
  {
    t := Table(map[1 := 1, 2 := 2, 3 := 3], 4);
    r1, r2, r3 := Row(1, 0, 0, Some(1)), Row(2, 0, 0, Some(2)), Row(3, 0, 0, Some(3));
    hide RowUid;
    var m1, m2, m3 := Msg(1, 1, 0, 0, 0), Msg(2, 2, 0, 0, 0), Msg(3, 3, 0, 0, 0);
    ResolveStep(t, r3, [], m3);
    ResolveStep(t, r2, [r3], m2);
    ResolveStep(t, r1, [r2, r3], m1);
    ResolveStep(t, r1, [r3], m1);
    assert [r1] + [r2, r3] == [r1, r2, r3] && [r1] + [r3] == [r1, r3] && [r2] + [r3] == [r2, r3] && [r3] + [] == [r3];
    assert Resolve(t, []).1 == [];
  }

  /** With a limit of two, three mails leave a list of one; when the second mail goes, both
      others are listed, and the one that was listed all the time is expunged. */
  lemma LimitExpungesSurvivor() returns (t: Table, all: seq<Row>, left: seq<Row>)
    ensures |all| == 3 && left == [all[0], all[2]]
    ensures var was, now := Fetched(t, all, 2), Fetched(t, left, 2);
      |was| == 1 && |now| == 2 && was[0].uid == now[1].uid && Gone(was, now) == was
  {
    var r1, r2, r3;
    t, r1, r2, r3 := ExampleResolved();
    all, left := [r1, r2, r3], [r1, r3];
    hide Resolve, Sort, Gone, Fetched, Number, Trim;
    var m1, m2, m3 := Msg(1, 1, 0, 0, 0), Msg(2, 2, 0, 0, 0), Msg(3, 3, 0, 0, 0);
    FetchedSorted(t, all, [m1, m2, m3], 2);
    FetchedSorted(t, left, [m1, m3], 2);
    TrimmedExample(m1, m2, m3);
    var was, now := Fetched(t, all, 2), Fetched(t, left, 2);
    OneUid(was);
    GoneAll(was, now);
  }

  lemma FetchedSorted(t: Table, rows: seq<Row>, ms: seq<Msg>, limit: nat)
    requires Resolve(t, rows).1 == ms && Ascending(ms)
    ensures Fetched(t, rows, limit) == Number(Trim(ms, limit))
  {
    hide Resolve, Sort;
    SortAscending(ms);
  }

  lemma TrimmedExample(m1: Msg, m2: Msg, m3: Msg)
    ensures Number(Trim([m1, m2, m3], 2)) == [m3.(seqId := 1)]
    ensures Number(Trim([m1, m3], 2)) == [m1.(seqId := 1), m3.(seqId := 2)]
  {
  }

  lemma OneUid(ms: seq<Msg>)
    requires |ms| == 1
    ensures Uids(ms) == {ms[0].uid}
  {
    assert ms[1..] == [];
  }

  lemma ResolveStep(t: Table, r: Row, rest: seq<Row>, m: Msg)
    requires r.uid == Some(m.uid) && m == Msg(m.uid, r.mailId, 0, r.flags, r.size)
    ensures Resolve(t, [r] + rest) == (Resolve(t, rest).0, [m] + Resolve(t, rest).1)
  {
    assert ([r] + rest)[1..] == rest;
  }

  lemma {:induction false} SortAscending(ms: seq<Msg>)
    requires Ascending(ms)
    ensures Sort(ms) == ms
  {
    if ms != [] {
      SortAscending(ms[1..]);
      assert [ms[0]] + ms[1..] == ms;
    }
  }

  // ----- the procedure itself -----

  lemma {:induction false} ResolveOneMore(t: Table, rows: seq<Row>, r: Row)
    ensures var (t1, ms) := Resolve(t, rows); var (t2, uid) := RowUid(t1, r);
      Resolve(t, rows + [r]) == (t2, ms + [Msg(uid, r.mailId, 0, r.flags, r.size)])
    decreases |rows|
  {
    if rows == [] {
      var all := rows + [r];
      var (t2, uid) := RowUid(t, r);
      assert all[0] == r && all[1..] == [];
      assert Resolve(t2, all[1..]) == (t2, []);
      var m := Msg(uid, r.mailId, 0, r.flags, r.size);
      assert Resolve(t, all).1 == [m] == Resolve(t, []).1 + [m];
    } else {
      var t0 := RowUid(t, rows[0]).0;
      var all := rows + [r];
      assert all[0] == rows[0] && all[1..] == rows[1..] + [r];
      ResolveOneMore(t0, rows[1..], r);
      var (t1, ms) := Resolve(t, rows);
      var (t2, uid) := RowUid(t1, r);
      var m := Msg(uid, r.mailId, 0, r.flags, r.size);
      assert Resolve(t, all).1 == [ms[0]] + (Resolve(t0, rows[1..]).1 + [m]) == ms + [m];
    }
  }

  // A new value for the flags of a mail.
  type Mark = (int, bv32)

  function WithSeen(flags: bv32): bv32 {
    flags | FLAG_SEEN
  }

  // The mails whose seen bit is still missing, in row order, with the flags they get.
  function Unseen(rows: seq<Row>): seq<Mark> {
    if rows == [] then []
    else
      var r := rows[|rows| - 1];
      Unseen(rows[..|rows| - 1]) + if Flagged(FLAG_SEEN, r.flags) then [] else [(r.mailId, WithSeen(r.flags))]
  }

  lemma NothingRead(t: Table, rows: seq<Row>)
    requires rows == []
    ensures Resolve(t, rows) == (t, []) && Unseen(rows) == []
  {
  }

  lemma UnseenOneMore(rows: seq<Row>, r: Row)
    ensures Unseen(rows + [r]) ==
      Unseen(rows) + if Flagged(FLAG_SEEN, r.flags) then [] else [(r.mailId, WithSeen(r.flags))]
  {
    assert (rows + [r])[..|rows|] == rows;
  }

  method ReadRows(rows: seq<Row>, table: UidTable, readOnly: bool) returns (list: seq<Msg>, marked: seq<Mark>)
    modifies table
    ensures (table.State(), list) == Resolve(old(table.State()), rows)
    ensures marked == if readOnly then [] else Unseen(rows)
  {
    hide Resolve, Unseen, Flagged;
    list, marked := [], [];
    ghost var t := table.State();
    NothingRead(t, rows[..0]);
    for k := 0 to |rows|
      invariant (table.State(), list) == Resolve(t, rows[..k])
      invariant marked == if readOnly then [] else Unseen(rows[..k])
    {
      var r := rows[k];
      ResolveOneMore(t, rows[..k], r);
      UnseenOneMore(rows[..k], r);
      assert rows[..k + 1] == rows[..k] + [r];
      var uid;
      if r.uid.Some? {
        uid := r.uid.value;
      } else {
        uid := table.AddUID(r.mailId);
      }
      list := list + [Msg(uid, r.mailId, 0, r.flags, r.size)];
      if !readOnly && !Flagged(FLAG_SEEN, r.flags) {
        marked := marked + [(r.mailId, WithSeen(r.flags))];
      }
    }
    assert rows[..|rows|] == rows;
  }

  method AssignNumbers(ms: seq<Msg>) returns (list: seq<Msg>)
    ensures list == Number(ms)
  {
    list := ms;
    for k := 0 to |list|
      invariant |list| == |ms|
      invariant forall i :: 0 <= i < |ms| ==> list[i] == if i < k then ms[i].(seqId := i + 1) else ms[i]
    {
      list := list[k := list[k].(seqId := k + 1)];
    }
  }

  /** Reads the rows, resolves UIDs, sorts, applies the limit and numbers. marked lists the
      mails whose seen bit is set in the database because the mailbox is not read-only. */
  method FetchMessages(rows: seq<Row>, table: UidTable, limit: nat, readOnly: bool)
    returns (list: seq<Msg>, marked: seq<Mark>)
    modifies table
    ensures table.State() == Resolve(old(table.State()), rows).0
    ensures list == Fetched(old(table.State()), rows, limit)
    ensures marked == if readOnly then [] else Unseen(rows)
  {
    list, marked := ReadRows(rows, table, readOnly);
    list := Sort(list);
    if limit != 0 && |list| > limit {
      list := list[|list| - limit + 1..];
    }
    list := AssignNumbers(list);
  }
}
