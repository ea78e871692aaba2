/** APPEND to the open mailbox: the list is read again and nothing is printed. */
module ImapAppend {
  import opened Options
  import opened ImapMessages
  import opened ImapDelta
  import opened ImapFetch
  import opened ImapSession
  import opened ImapFresh

  // ----- the view breaks -----

  lemma {:induction false} AllKnown(mails: seq<Mail>, t: Table, folder: int)
    requires FolderIds(mails, folder) <= t.uids.Keys
    ensures Resolve(t, RowsOf(mails, t, folder)).0 == t
  {
    if mails != [] {
      AllKnown(mails[1..], t, folder);
      var rows, rest := RowsOf(mails, t, folder), RowsOf(mails[1..], t, folder);
      if mails[0].folder == folder {
        assert mails[0].mailId in t.uids.Keys;
        assert rows[1..] == rest;
      } else {
        assert rows == rest;
      }
    }
  }

  lemma {:induction false} RowsSum(a: seq<Mail>, b: seq<Mail>, t: Table, folder: int)
    ensures RowsOf(a + b, t, folder) == RowsOf(a, t, folder) + RowsOf(b, t, folder)
  {
    if a == [] {
      assert a + b == b;
    } else {
      assert (a + b)[1..] == a[1..] + b;
      RowsSum(a[1..], b, t, folder);
    }
  }

  lemma {:induction false} IdsSum(a: seq<Mail>, b: seq<Mail>, folder: int)
    ensures FolderIds(a + b, folder) == FolderIds(a, folder) + FolderIds(b, folder)
    ensures AllIds(a + b) == AllIds(a) + AllIds(b)
    ensures DistinctIn(a) && DistinctIn(b) && AllIds(a) !! AllIds(b) ==> DistinctIn(a + b)
  {
    if a == [] {
      assert a + b == b;
    } else {
      assert (a + b)[1..] == a[1..] + b;
      IdsSum(a[1..], b, folder);
    }
  }

  // The database with one more mail in the folder.
  function Appended(db: Db, m: Mail): Db {
    db.(mails := db.mails + [m])
  }

  // The mailbox is open, its list is that of the folder, and a mail is appended to it.
  predicate AppendsHere(s: Session, db: Db, m: Mail) {
    && DbValid(db) && FolderIds(db.mails, s.selected) <= db.uids.uids.Keys
    && UidSeq(s.msgs) == UidSeq(FetchList(db, s.selected, s.limit))
    && m.folder == s.selected && m.mailId !in AllIds(db.mails) && m.mailId !in db.uids.uids
  }

  lemma OneMail(m: Mail, t: Table)
    ensures FolderIds([m], m.folder) == AllIds([m]) == {m.mailId} && DistinctIn([m])
    ensures |RowsOf([m], t, m.folder)| == 1
  {
    assert [m][1..] == [];
    assert FolderIds([m][1..], m.folder) == {} == AllIds([m][1..]);
    assert FolderIds([m], m.folder) == {m.mailId} + FolderIds([m][1..], m.folder);
  }

  // The rows of the folder before and after.
  lemma AppendedRows(s: Session, db: Db, m: Mail)
    requires AppendsHere(s, db, m)
    ensures var t := db.uids;
      var rows, rows2 := RowsOf(db.mails, t, s.selected), RowsOf(Appended(db, m).mails, t, s.selected);
      && Joined(t, rows) && DistinctMails(rows) && Joined(t, rows2) && DistinctMails(rows2)
      && Resolve(t, rows).0 == t && |rows2| == |rows| + 1
      && MailIds(rows2) == MailIds(rows) + {m.mailId} && m.mailId !in MailIds(rows)
  {
    hide RowsOf, FolderIds, AllIds, DistinctIn, MailIds, DistinctMails, Joined, Resolve, FetchList, UidSeq;
    var t := db.uids;
    OneMail(m, t);
    RowsSum(db.mails, [m], t, s.selected);
    IdsSum(db.mails, [m], s.selected);
    RowsFacts(db.mails, t, s.selected);
    RowsFacts(db.mails + [m], t, s.selected);
    AllKnown(db.mails, t, s.selected);
  }

  // The new mail gets a UID above all others.
  lemma NewUid(s: Session, db: Db, m: Mail) returns (u: int)
    requires AppendsHere(s, db, m)
    ensures var t := db.uids;
      var before, after := Uids(Resolve(t, RowsOf(db.mails, t, s.selected)).1),
        Uids(Resolve(t, RowsOf(Appended(db, m).mails, t, s.selected)).1);
      after == before + {u} && forall v :: v in before ==> v < u
  {
    hide Resolve, Uids, RowsOf;
    AppendedRows(s, db, m);
    var t := db.uids;
    var rows, rows2 := RowsOf(db.mails, t, s.selected), RowsOf(Appended(db, m).mails, t, s.selected);
    ResolvedUids(t, rows);
    ResolvedUids(t, rows2);
    ResolveTable(t, rows2);
    var t3 := Resolve(t, rows2).0;
    UidsKept(t, t3, MailIds(rows));
    u := t3.uids[m.mailId];
    OneMoreUid(t3, MailIds(rows), m.mailId);
    forall id | id in MailIds(rows)
      ensures t3.uids[id] < u
    {
      assert id in t.uids.Keys;
      assert t3.uids[id] == t.uids[id] < t.next;
    }
    assert forall v :: v in UidsOf(t3, MailIds(rows)) ==> v < u;
  }

  lemma OneMoreUid(t: Table, ids: set<int>, id: int)
    requires ids <= t.uids.Keys && id in t.uids
    ensures UidsOf(t, ids + {id}) == UidsOf(t, ids) + {t.uids[id]}
  {
  }

  // Two lists that a fully informed view agrees with have the same UIDs.
  lemma InformedTwice(v: View, a: seq<Msg>, b: seq<Msg>)
    requires AllInformed(v) && Agrees(v, a) && Agrees(v, b)
    ensures UidSeq(a) == UidSeq(b)
  {
    forall i | 0 <= i < |v|
      ensures a[i].uid == b[i].uid
    {
      assert Informed(v[i]) && EntryAgrees(v[i], a[i]) && EntryAgrees(v[i], b[i]);
    }
  }

  /** After an APPEND to the open mailbox, whose list was that of the folder before, the view
      of a client that knows everything is wrong, except with a limit of one: then the list
      is empty before and after as soon as there are two messages. Without a limit, or as
      long as it is not exceeded, every view is wrong. */
  lemma AppendBreaksView(v: View, s: Session, db: Db, m: Mail)
    requires s.phase == InMailbox && InStep(v, s) && AppendsHere(s, db, m)
    ensures var now, n := FetchList(Appended(db, m), s.selected, s.limit), |RowsOf(db.mails, db.uids, s.selected)|;
      && (s.limit == 0 || n <= s.limit ==> !Agrees(v, now))
      && (AllInformed(v) ==> (Agrees(v, now) <==> s.limit == 1 && n >= 2))
  {
    hide Resolve, Uids, RowsOf, Fetched, Ascending;
    AppendedRows(s, db, m);
    var t := db.uids;
    var rows, rows2 := RowsOf(db.mails, t, s.selected), RowsOf(Appended(db, m).mails, t, s.selected);
    FetchedFacts(t, rows, s.limit);
    FetchedFacts(t, rows2, s.limit);
    var was, now := FetchList(db, s.selected, s.limit), FetchList(Appended(db, m), s.selected, s.limit);
    assert |s.msgs| == |UidSeq(s.msgs)| == |UidSeq(was)| == |was|;
    if s.limit > 1 && |rows| > s.limit {
      var u := NewUid(s, db, m);
      UidsOfMembers(now);
      assert now[0].uid in Uids(now);
      assert u in Uids(now) && u !in Uids(was);
      if AllInformed(v) && Agrees(v, now) {
        InformedTwice(v, s.msgs, now);
        SameUidSeq(was, now);
        assert false;
      }
    }
  }

  // ----- what a later refresh makes of it -----

  lemma Associative<T>(a: seq<T>, b: seq<T>, c: seq<T>)
    ensures a + b + c == a + (b + c)
  {
  }

  // What is left of the new list when the old one has been matched against its front.
  lemma {:induction false} SurvivorsSplit(a: seq<Msg>, b: seq<Msg>, later: seq<Msg>, k: int)
    ensures var s := Survivors(a, later, k);
      |s| <= |later| && Survivors(a + b, later, k) == s + Survivors(b, later[|s|..], k + |s|)
    decreases |a|
  {
    if a == [] {
      assert a + b == b && later[0..] == later;
    } else {
      var s := Survivors(a, later, k);
      assert (a + b)[1..] == a[1..] + b;
      if later != [] && a[0].uid == later[0].uid {
        SurvivorsSplit(a[1..], b, later[1..], k + 1);
        assert later[1..][|s| - 1..] == later[|s|..];
        Associative([a[0].(seqId := k)], Survivors(a[1..], later[1..], k + 1), Survivors(b, later[|s|..], k + |s|));
      } else {
        SurvivorsSplit(a[1..], b, later, k);
      }
    }
  }

  // The first old message stays or goes.
  lemma ExpungesStep(was: seq<Msg>, later: seq<Msg>, k: int)
    requires was != []
    ensures if later != [] && was[0].uid == later[0].uid then
        Expunges(was, later, k) == Expunges(was[1..], later[1..], k + 1)
        && |Survivors(was, later, k)| == 1 + |Survivors(was[1..], later[1..], k + 1)|
      else
        Expunges(was, later, k) == [Expunge(k)] + Expunges(was[1..], later, k)
        && Survivors(was, later, k) == Survivors(was[1..], later, k)
  {
    if later == [] {
      assert Survivors(was[1..], later, k) == [];
    }
  }

  lemma NothingOld(later: seq<Msg>, k: int)
    ensures Expunges([], later, k) == [] && Survivors([], later, k) == []
  {
  }

  lemma {:induction false} ExpungesSplit(a: seq<Msg>, b: seq<Msg>, later: seq<Msg>, k: int)
    requires |Survivors(a, later, k)| <= |later|
    ensures var m := |Survivors(a, later, k)|;
      Expunges(a + b, later, k) == Expunges(a, later, k) + Expunges(b, later[m..], k + m)
    decreases |a|
  {
    hide Expunges, Survivors;
    if a == [] {
      NothingOld(later, k);
      assert a + b == b && later[0..] == later;
    } else {
      var m := |Survivors(a, later, k)|;
      ExpungesStep(a, later, k);
      ExpungesStep(a + b, later, k);
      assert (a + b)[1..] == a[1..] + b && (a + b)[0] == a[0];
      if later != [] && a[0].uid == later[0].uid {
        ExpungesSplit(a[1..], b, later[1..], k + 1);
        assert later[1..][m - 1..] == later[m..];
      } else {
        ExpungesSplit(a[1..], b, later, k);
        Associative([Expunge(k)], Expunges(a[1..], later, k), Expunges(b, later[m..], k + m));
      }
    }
  }

  predicate StartsWith(later: seq<Msg>, b: seq<Msg>) {
    |b| <= |later| && forall j :: 0 <= j < |b| ==> b[j].uid == later[j].uid
  }

  // Nothing is expunged exactly if the new list starts with the old one; the first EXPUNGE
  // otherwise has a number of at least k.
  lemma {:induction false} NoneExpungedIff(b: seq<Msg>, later: seq<Msg>, k: int)
    ensures Expunges(b, later, k) == [] <==> StartsWith(later, b)
    ensures Expunges(b, later, k) != [] ==> Expunges(b, later, k)[0].Expunge? && Expunges(b, later, k)[0].n >= k
    ensures StartsWith(later, b) ==> |Survivors(b, later, k)| == |b|
    ensures StartsWith(later, b) ==> forall j :: 0 <= j < |b| ==> Survivors(b, later, k)[j] == b[j].(seqId := k + j)
    decreases |b|
  {
    if b != [] && later != [] && b[0].uid == later[0].uid {
      NoneExpungedIff(b[1..], later[1..], k + 1);
      if StartsWith(later[1..], b[1..]) {
        assert forall j :: 0 < j < |b| ==> b[j].uid == b[1..][j - 1].uid && later[j].uid == later[1..][j - 1].uid;
      }
      if StartsWith(later, b) {
        assert forall j :: 0 <= j < |b| - 1 ==> b[1..][j].uid == b[j + 1].uid && later[1..][j].uid == later[j + 1].uid;
      }
    }
  }

  // The first line names a message that the client does not know of.
  lemma TooHigh(u: View, ls: seq<Line>, more: seq<Line>)
    requires ls != [] && ((ls[0].Expunge? && ls[0].n > |u|) || (ls[0].Fetch? && ls[0].n > |u|))
    ensures Replay(u, ls + more) == None
  {
  }

  lemma {:induction false} FlagLinesSplit(kept: seq<Msg>, later: seq<Msg>, i: nat, m: nat)
    requires i <= m <= |kept| <= |later|
    ensures FlagLines(kept, later, i) == FlagLines(kept[..m], later, i) + FlagLines(kept, later, m)
    decreases m - i
  {
    hide FlagLine;
    if i < m {
      FlagLinesSplit(kept, later, i + 1, m);
      assert kept[..m][i] == kept[i];
      Associative(FlagLine(kept[i], later[i], i + 1), FlagLines(kept[..m], later, i + 1), FlagLines(kept, later, m));
    } else {
      assert FlagLines(kept[..m], later, i) == [];
    }
  }

  predicate SameFlags(kept: seq<Msg>, later: seq<Msg>, m: nat) {
    forall j :: m <= j < |kept| && j < |later| ==> kept[j].flags == later[j].flags
  }

  // No FETCH from position m on exactly if no flags have changed there.
  lemma {:induction false} NoFetchIff(kept: seq<Msg>, later: seq<Msg>, m: nat)
    requires |kept| <= |later|
    ensures FlagLines(kept, later, m) == [] <==> SameFlags(kept, later, m)
    ensures FlagLines(kept, later, m) != [] ==> FlagLines(kept, later, m)[0].Fetch? && FlagLines(kept, later, m)[0].n > m
    decreases |kept| - m
  {
    if m < |kept| {
      NoFetchIff(kept, later, m + 1);
      if SameFlags(kept, later, m + 1) && kept[m].flags == later[m].flags {
        assert SameFlags(kept, later, m);
      }
    }
  }

  function Grown(x: View, n: nat): View
    requires |x| <= n
  {
    x + seq(n - |x|, i => Entry(None, None))
  }

  lemma CountLine(x: View, was: seq<Msg>, later: seq<Msg>)
    requires |x| <= |later|
    ensures Replay(x, CountLines(was, later))
         == Some(if |later| != |was| || Expunges(was, later, 1) != [] then Grown(x, |later|) else x)
  {
    hide Expunges, Replay;
    if CountLines(was, later) == [] {
      ReplayNothing(x);
    } else {
      ReplayOne(x, Exists(|later|));
    }
  }

  lemma RecentLine(w: View, was: seq<Msg>, later: seq<Msg>)
    ensures Replay(w, RecentLines(was, later)) == Some(w)
  {
    hide CountRecent;
    var d := RecentLines(was, later);
    if d != [] {
      assert d[1..] == [];
    }
  }

  // The counting lines, for a view that has the first positions of the new list.
  lemma CountOnly(x: View, was: seq<Msg>, later: seq<Msg>)
    requires AgreesFront(x, later) && |x| < |later|
    ensures var printed := |later| != |was| || Expunges(was, later, 1) != [];
      var w := if printed then Grown(x, |later|) else x;
      Replay(x, CountLines(was, later) + RecentLines(was, later)) == Some(w) && (Agrees(w, later) <==> printed)
  {
    hide Expunges, EntryAgrees, Replay, CountLines, RecentLines;
    var printed := |later| != |was| || Expunges(was, later, 1) != [];
    var w := if printed then Grown(x, |later|) else x;
    CountLine(x, was, later);
    RecentLine(w, was, later);
    ReplayConcat(x, CountLines(was, later), RecentLines(was, later));
    AgreesGrown(x, later);
  }

  // The client knows the first n messages of the list now and has not heard of the others.
  // The refresh sets it right: the others follow the survivors of those it knows, with their
  // flags unchanged, and an EXISTS is printed because something else has gone or arrived.
  predicate Repairs(now: seq<Msg>, n: nat, later: seq<Msg>)
    requires n <= |now|
  {
    var m := |Survivors(now[..n], later, 1)|;
    m <= |later| && Follows(now[n..], later[m..]) && !(m == n && |later| == |now|)
  }

  predicate Follows(b: seq<Msg>, l: seq<Msg>) {
    StartsWith(l, b) && forall j :: 0 <= j < |b| ==> b[j].flags == l[j].flags
  }

  ghost predicate ReplaysInto(v: View, ls: seq<Line>, ms: seq<Msg>) {
    Replay(v, ls).Some? && Agrees(Replay(v, ls).value, ms)
  }

  // Flags of the last part of the survivors.
  lemma TailFlags(kept: seq<Msg>, later: seq<Msg>, m: nat, b: seq<Msg>, l: seq<Msg>)
    requires |kept| == m + |b| <= |later| && StartsWith(l, b)
    requires forall j :: m <= j < |kept| ==> kept[j].flags == b[j - m].flags && later[j] == l[j - m]
    ensures SameFlags(kept, later, m) <==> Follows(b, l)
  {
    if SameFlags(kept, later, m) {
      forall j | 0 <= j < |b|
        ensures b[j].flags == l[j].flags
      {
        var i := m + j;
        assert kept[i].flags == later[i].flags;
        assert kept[i].flags == b[i - m].flags && later[i] == l[i - m];
      }
    }
  }

  lemma TailOf(kept: seq<Msg>, s1: seq<Msg>, s2: seq<Msg>, later: seq<Msg>, b: seq<Msg>, k: int)
    requires kept == s1 + s2 && |s1| <= |later| && StartsWith(later[|s1|..], b) && s2 == Survivors(b, later[|s1|..], k)
    ensures |kept| == |s1| + |b| <= |later|
    ensures SameFlags(kept, later, |s1|) <==> Follows(b, later[|s1|..])
  {
    hide Survivors, Expunges, StartsWith, SameFlags, Follows;
    var l, m := later[|s1|..], |s1|;
    NoneExpungedIff(b, l, k);
    assert |b| <= |l| by {
      FrontLength(l, b);
    }
    forall j | m <= j < |kept|
      ensures kept[j].flags == b[j - m].flags && later[j] == l[j - m]
    {
      assert kept[j] == s2[j - m];
    }
    TailFlags(kept, later, m, b, l);
  }

  lemma FrontLength(l: seq<Msg>, b: seq<Msg>)
    requires StartsWith(l, b)
    ensures |b| <= |l|
  {
  }

  // The lines after the EXPUNGEs, for a view that has the survivors of what it knew.
  lemma RestReplay(u: View, s1: seq<Msg>, now: seq<Msg>, kept: seq<Msg>, later: seq<Msg>)
    requires |s1| < |kept| <= |later| && kept[..|s1|] == s1
    requires |u| == |s1| && (forall j :: 0 <= j < |u| ==> EntryAgrees(u[j], s1[j]))
    requires forall j :: 0 <= j < |s1| ==> s1[j].uid == later[j].uid
    ensures var rest := FlagLines(kept, later, 0) + (CountLines(now, later) + RecentLines(now, later));
      ReplaysInto(u, rest, later) <==>
        SameFlags(kept, later, |s1|) && (|later| != |now| || Expunges(now, later, 1) != [])
  {
    hide EntryAgrees, FlagLines, CountLines, RecentLines, Replay, Expunges, Agrees, AllInformed, SameFlags, Survivors;
    var m, c := |s1|, CountLines(now, later) + RecentLines(now, later);
    FlagLinesSplit(kept, later, 0, m);
    var f1, f2 := FlagLines(s1, later, 0), FlagLines(kept, later, m);
    var x := FlagReplay(u, s1, later, 0);
    Associative(f1, f2, c);
    ReplayConcat(u, f1, f2 + c);
    NoFetchIff(kept, later, m);
    if f2 != [] {
      TooHigh(x, f2, c);
    } else {
      assert f2 + c == c;
      CountOnly(x, now, later);
    }
  }

  /** A refresh after an APPEND, seen by a client that knows the first n messages of the list
      but not the others: every line can be replayed and the view agrees again if and only if
      the others follow the survivors with their flags unchanged, and something else has gone
      or arrived, so that an EXISTS is printed. */
  lemma RepairedIff(v: View, now: seq<Msg>, n: nat, later: seq<Msg>)
    requires n < |now| && Agrees(v, now[..n])
    ensures ReplaysInto(v, DeltaLines(now, later), later) <==> Repairs(now, n, later)
  {
    hide EntryAgrees, FlagLines, CountLines, RecentLines, Replay, Expunges, Survivors, Follows, SameFlags, AllInformed;
    var a, b := now[..n], now[n..];
    assert now == a + b;
    SurvivorsSplit(a, b, later, 1);
    ExpungesSplit(a, b, later, 1);
    SurvivorsMatch(a, later, 1);
    var s1, kept := Survivors(a, later, 1), Survivors(now, later, 1);
    var m := |s1|;
    var e1, e2 := Expunges(a, later, 1), Expunges(b, later[m..], 1 + m);
    var f, c := FlagLines(kept, later, 0), CountLines(now, later) + RecentLines(now, later);
    assert AgreesFrom(v, 0, a) by {
      assert forall j :: 0 <= j < n ==> a[j - 0] == a[j];
    }
    var u := ExpungeReplay(v, 0, a, later);
    assert DeltaLines(now, later) == e1 + (e2 + (f + c));
    ReplayConcat(v, e1, e2 + (f + c));
    NoneExpungedIff(b, later[m..], 1 + m);
    if e2 != [] {
      TooHigh(u, e2, f + c);
      assert !Follows(b, later[m..]) by {
        NotFollowing(b, later[m..]);
      }
    } else {
      assert e2 + (f + c) == f + c;
      TailOf(kept, s1, Survivors(b, later[m..], 1 + m), later, b, 1 + m);
      assert forall j :: 0 <= j < m ==> s1[j] == s1[j - 0];
      RestReplay(u, s1, now, kept, later);
    }
  }

  lemma NotFollowing(b: seq<Msg>, l: seq<Msg>)
    requires !StartsWith(l, b)
    ensures !Follows(b, l)
  {
  }

  // ----- the list after an APPEND -----

  lemma {:induction false} InsertBefore(h: Msg, ms: seq<Msg>, last: Msg)
    requires h.uid <= last.uid
    ensures Insert(h, ms + [last]) == Insert(h, ms) + [last]
  {
    if ms == [] {
      assert ms + [last] == [last];
    } else {
      assert (ms + [last])[1..] == ms[1..] + [last];
      if h.uid > ms[0].uid {
        InsertBefore(h, ms[1..], last);
      }
    }
  }

  lemma {:induction false} SortLast(ms: seq<Msg>, last: Msg)
    requires forall i :: 0 <= i < |ms| ==> ms[i].uid <= last.uid
    ensures Sort(ms + [last]) == Sort(ms) + [last]
  {
    if ms == [] {
      assert ms + [last] == [last] && [last][1..] == [];
    } else {
      assert (ms + [last])[1..] == ms[1..] + [last];
      SortLast(ms[1..], last);
      InsertBefore(ms[0], Sort(ms[1..]), last);
    }
  }

  lemma NewRow(mails: seq<Mail>, t: Table, m: Mail)
    requires m.mailId !in t.uids
    ensures RowsOf(mails + [m], t, m.folder) == RowsOf(mails, t, m.folder) + [Row(m.mailId, m.flags, m.size, None)]
  {
    RowsSum(mails, [m], t, m.folder);
    assert [m][1..] == [];
    assert RowsOf([m], t, m.folder) == [Row(m.mailId, m.flags, m.size, None)];
  }

  // A row whose mail has no UID yet becomes the last message, and nothing else changes.
  lemma FetchedLast(t: Table, rows: seq<Row>, r: Row) returns (last: Msg)
    requires TableValid(t) && Joined(t, rows) && Resolve(t, rows).0 == t && r.uid == None && r.mailId !in t.uids
    ensures Fetched(t, rows + [r], 0) == Fetched(t, rows, 0) + [last]
  {
    hide Resolve, Sort;
    ResolveOneMore(t, rows, r);
    var ms := Resolve(t, rows).1;
    var raw := Msg(t.next, r.mailId, 0, r.flags, r.size);
    ResolveFrom(t, rows);
    SortLast(ms, raw);
    last := raw.(seqId := |Sort(ms)| + 1);
    assert Number(Sort(ms) + [raw]) == Number(Sort(ms)) + [last];
  }

  /** The same for the list that APPEND leaves, without a limit: a client in step with the list
      before it can replay a later refresh into agreement exactly if Repairs holds. */
  lemma AppendRepairedIff(v: View, s: Session, db: Db, m: Mail, later: seq<Msg>)
    requires s.phase == InMailbox && InStep(v, s) && AppendsHere(s, db, m)
    requires s.limit == 0 && s.msgs == FetchList(db, s.selected, 0)
    ensures var now := FetchList(Appended(db, m), s.selected, 0);
      |s.msgs| < |now| && (ReplaysInto(v, DeltaLines(now, later), later) <==> Repairs(now, |s.msgs|, later))
  {
    hide Repairs, DeltaLines, ReplaysInto, Fetched, Resolve, RowsOf, FolderIds, AllIds;
    AppendedRows(s, db, m);
    NewRow(db.mails, db.uids, m);
    var rows := RowsOf(db.mails, db.uids, s.selected);
    var last := FetchedLast(db.uids, rows, Row(m.mailId, m.flags, m.size, None));
    var now := FetchList(Appended(db, m), s.selected, 0);
    assert now[..|s.msgs|] == s.msgs;
    RepairedIff(v, now, |s.msgs|, later);
  }
}
