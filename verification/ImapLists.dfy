/** What a list shows of a folder, and when a refresh prints what. */
module ImapLists {
  import opened Options
  import opened ImapMessages
  import opened ImapDelta
  import opened ImapFetch
  import opened ImapSession
  import opened ImapFresh
  import opened ImapAppend

  // ----- a list and its folder -----

  lemma {:induction false} RowMail(mails: seq<Mail>, t: Table, folder: int, j: nat) returns (k: nat)
    requires j < |RowsOf(mails, t, folder)|
    ensures var r := RowsOf(mails, t, folder)[j];
      k < |mails| && mails[k] == Mail(folder, r.mailId, r.flags, r.size)
  {
    var rest := RowsOf(mails[1..], t, folder);
    if mails[0].folder == folder && j == 0 {
      k := 0;
    } else if mails[0].folder == folder {
      assert RowsOf(mails, t, folder)[j] == rest[j - 1];
      k := RowMail(mails[1..], t, folder, j - 1);
      k := k + 1;
    } else {
      assert RowsOf(mails, t, folder) == rest;
      k := RowMail(mails[1..], t, folder, j);
      k := k + 1;
    }
  }

  lemma {:induction false} FolderHas(mails: seq<Mail>, folder: int, k: nat)
    requires k < |mails| && mails[k].folder == folder
    ensures mails[k].mailId in FolderIds(mails, folder)
  {
    if k > 0 {
      FolderHas(mails[1..], folder, k - 1);
    }
  }

  /** Every message of a list that has been read is a mail of the folder, with its flags and its
      size, under the UID that the table has for it from then on. */
  lemma ListedMail(db: Db, folder: int, limit: nat, i: nat) returns (k: nat)
    requires DbValid(db) && i < |FetchList(db, folder, limit)|
    ensures var m := FetchList(db, folder, limit)[i];
      && k < |db.mails| && db.mails[k] == Mail(folder, m.mailId, m.flags, m.size)
      && m.seqId == i + 1
      && m.mailId in TableRead(db, folder).uids && m.uid == TableRead(db, folder).uids[m.mailId]
      && (m.mailId in db.uids.uids ==> m.uid == db.uids.uids[m.mailId])
  {
    hide Resolve, Fetched, RowsOf;
    RowsFacts(db.mails, db.uids, folder);
    var rows := RowsOf(db.mails, db.uids, folder);
    ResolveTable(db.uids, rows);
    var j := FetchedFrom(db.uids, rows, limit, i);
    k := RowMail(db.mails, db.uids, folder, j);
  }

  /** Without a limit every mail of the folder is in the list. */
  lemma WholeFolder(db: Db, folder: int, k: nat) returns (i: nat)
    requires DbValid(db) && k < |db.mails| && db.mails[k].folder == folder
    ensures i < |FetchList(db, folder, 0)| && FetchList(db, folder, 0)[i].mailId == db.mails[k].mailId
  {
    hide FetchList, DbValid;
    FolderHas(db.mails, folder, k);
    i := InList(db, folder, db.mails[k].mailId);
  }

  // ----- when a refresh prints what -----

  predicate SameUids(was: seq<Msg>, now: seq<Msg>) {
    |was| == |now| && forall i :: 0 <= i < |was| ==> was[i].uid == now[i].uid
  }

  lemma {:induction false} SameRecent(a: seq<Msg>, b: seq<Msg>)
    requires |a| == |b| && forall i :: 0 <= i < |a| ==> a[i].flags == b[i].flags
    ensures CountRecent(a) == CountRecent(b)
  {
    hide Flagged;
    if a != [] {
      SameRecent(a[1..], b[1..]);
    }
  }

  /** A refresh prints nothing exactly if the same messages are there with the same flags. */
  lemma DeltaSilentIff(was: seq<Msg>, now: seq<Msg>)
    ensures DeltaLines(was, now) == [] <==>
      |was| == |now| && forall i :: 0 <= i < |was| ==> was[i].uid == now[i].uid && was[i].flags == now[i].flags
  {
    hide Expunges, FlagLines, Survivors, CountRecent;
    NoneExpungedIff(was, now, 1);
    SurvivorsMatch(was, now, 1);
    NoFetchIff(Survivors(was, now, 1), now, 0);
    if |was| == |now| && forall i :: 0 <= i < |was| ==> was[i].flags == now[i].flags {
      SameRecent(was, now);
    }
    assert DeltaLines(was, now) == [] <==>
      Expunges(was, now, 1) == [] && FlagLines(Survivors(was, now, 1), now, 0) == []
      && CountLines(was, now) == [] && RecentLines(was, now) == [];
  }

  lemma {:induction false} FetchOnlyChanged(kept: seq<Msg>, now: seq<Msg>, i: nat, l: Line)
    requires l in FlagLines(kept, now, i)
    ensures exists j ::
      i <= j < |kept| && j < |now| && kept[j].flags != now[j].flags
      && l == Fetch(j + 1, None, Some(Shown(now[j].flags)))
    decreases |kept| - i
  {
    hide Shown;
    if l in FlagLine(kept[i], now[i], i + 1) {
      assert kept[i].flags != now[i].flags && l == Fetch(i + 1, None, Some(Shown(now[i].flags)));
    } else {
      FetchOnlyChanged(kept, now, i + 1, l);
    }
  }

  lemma {:induction false} ExpungesOnly(was: seq<Msg>, now: seq<Msg>, k: int)
    ensures forall l :: l in Expunges(was, now, k) ==> l.Expunge?
    decreases |was|
  {
    if was != [] {
      if now == [] {
        ExpungesOnly(was[1..], now, k);
      } else if was[0].uid == now[0].uid {
        ExpungesOnly(was[1..], now[1..], k + 1);
      } else {
        ExpungesOnly(was[1..], now, k);
      }
    }
  }

  lemma InFour<T>(a: seq<T>, b: seq<T>, c: seq<T>, d: seq<T>, x: T)
    ensures x in a + b + c + d <==> x in a || x in b || x in c || x in d
  {
  }

  /** A refresh prints a FETCH under number i + 1 exactly if the survivor there has other flags
      now, and EXISTS exactly if the UIDs are not the same as before. */
  lemma DeltaPrintsIff(was: seq<Msg>, now: seq<Msg>, i: nat)
    requires i < |Survivors(was, now, 1)|
    ensures (exists l :: l in DeltaLines(was, now) && l.Fetch? && l.n == i + 1) <==>
      i < |now| && Survivors(was, now, 1)[i].flags != now[i].flags
  {
    hide Expunges, FlagLines, Survivors, CountRecent, Shown;
    var kept := Survivors(was, now, 1);
    SurvivorsMatch(was, now, 1);
    ExpungesOnly(was, now, 1);
    if l :| l in DeltaLines(was, now) && l.Fetch? && l.n == i + 1 {
      InFour(Expunges(was, now, 1), FlagLines(kept, now, 0), CountLines(was, now), RecentLines(was, now), l);
      FetchOnlyChanged(kept, now, 0, l);
    }
    if kept[i].flags != now[i].flags {
      SurvivorFlagsReported(was, now, i);
    }
  }

  lemma ExistsPrintedIff(was: seq<Msg>, now: seq<Msg>, n: nat)
    ensures Exists(n) in DeltaLines(was, now) <==> n == |now| && !SameUids(was, now)
  {
    hide Expunges, FlagLines, Survivors, CountRecent, Shown;
    var kept, l := Survivors(was, now, 1), Exists(n);
    ExpungesOnly(was, now, 1);
    NoneExpungedIff(was, now, 1);
    InFour(Expunges(was, now, 1), FlagLines(kept, now, 0), CountLines(was, now), RecentLines(was, now), l);
    if l in FlagLines(kept, now, 0) {
      FetchOnlyChanged(kept, now, 0, l);
    }
  }
}
