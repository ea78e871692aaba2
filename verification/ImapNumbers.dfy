/** The numbers in the answer to SEARCH. They do not come from the message list: the table is
    read again, newest mail id first, and the rows are counted down. */
module ImapNumbers {
  import opened Options
  import opened ImapMessages
  import opened ImapDelta
  import opened ImapFetch
  import opened ImapSession
  import opened ImapFresh

  // ----- the rows that SEARCH reads -----

  predicate Falling(rows: seq<int>) {
    forall i, j :: 0 <= i < j < |rows| ==> rows[i] > rows[j]
  }

  /** The answer of SELECT ... ORDER BY id DESC, with LIMIT unless the limit is zero, for a
      folder that holds the mails ids. */
  predicate Answer(ids: set<int>, limit: nat, rows: seq<int>) {
    && Falling(rows) && (forall x :: x in rows ==> x in ids)
    && |rows| == (if limit != 0 && |ids| > limit then limit else |ids|)
    && (forall x, y :: x in ids && x !in rows && y in rows ==> x < y)
  }

  // The number that the i-th row gets.
  function NumberOf(rows: seq<int>, i: nat): int {
    |rows| - i
  }

  function Reversed(rows: seq<int>): (r: seq<int>)
    ensures |r| == |rows|
  {
    seq(|rows|, i requires 0 <= i < |rows| => rows[|rows| - 1 - i])
  }

  // The numbers of the matching rows in rising order; k is the number of the first one.
  function Found(rising: seq<int>, matches: int -> bool, k: int): seq<int> {
    if rising == [] then []
    else (if matches(rising[0]) then [k] else []) + Found(rising[1..], matches, k + 1)
  }

  lemma ReversedSnoc(a: seq<int>, x: int)
    ensures Reversed(a + [x]) == [x] + Reversed(a)
  {
  }

  // The row at position i, seen from the oldest.
  lemma FoundRow(rows: seq<int>, matches: int -> bool, i: nat)
    requires i < |rows|
    ensures var r, k := Reversed(rows), |rows| - i;
      Found(r[k - 1..], matches, k) == (if matches(rows[i]) then [k] else []) + Found(r[k..], matches, k + 1)
  {
    var r, k := Reversed(rows), |rows| - i;
    assert r[k - 1..][0] == rows[i] && r[k - 1..][1..] == r[k..];
  }

  lemma NoneFound(rows: seq<int>, matches: int -> bool)
    ensures Found(Reversed(rows)[|rows|..], matches, |rows| + 1) == [] && Reversed([]) == []
    ensures Reversed(rows)[0..] == Reversed(rows)
  {
    assert Reversed(rows)[|rows|..] == [];
  }

  // The hits are printed last one first.
  method PrintReversed(hits: seq<int>) returns (printed: seq<int>)
    ensures printed == Reversed(hits)
  {
    printed := [];
    var k := |hits|;
    while k > 0
      invariant 0 <= k <= |hits| && printed == Reversed(hits)[..|hits| - k]
    {
      k := k - 1;
      printed := printed + [hits[k]];
    }
  }

  /** The loop over the rows and the output in reverse: the numbers of the matching rows,
      counted from the oldest. */
  method SearchNumbers(rows: seq<int>, matches: int -> bool) returns (printed: seq<int>)
    ensures printed == Found(Reversed(rows), matches, 1)
  {
    hide Found, Reversed;
    var counter, hits := 0, [];
    NoneFound(rows, matches);
    while counter < |rows|
      invariant counter <= |rows|
      invariant Reversed(hits) == Found(Reversed(rows)[|rows| - counter..], matches, |rows| - counter + 1)
    {
      var seqId := |rows| - counter;
      FoundRow(rows, matches, counter);
      if matches(rows[counter]) {
        ReversedSnoc(hits, seqId);
        hits := hits + [seqId];
      }
      counter := counter + 1;
    }
    printed := PrintReversed(hits);
  }

  lemma InEither(a: seq<int>, b: seq<int>, n: int)
    ensures n in a + b <==> n in a || n in b
  {
  }

  lemma {:induction false} FoundAt(rising: seq<int>, matches: int -> bool, k: int, n: int)
    ensures n in Found(rising, matches, k) <==> k <= n < k + |rising| && matches(rising[n - k])
  {
    if rising != [] {
      var head, rest := if matches(rising[0]) then [k] else [], Found(rising[1..], matches, k + 1);
      FoundAt(rising[1..], matches, k + 1, n);
      InEither(head, rest, n);
      assert Found(rising, matches, k) == head + rest;
      hide Found;
      assert n in head <==> matches(rising[0]) && n == k;
      if k < n < k + |rising| {
        assert rising[1..][n - k - 1] == rising[n - k];
      }
    }
  }

  lemma PrependRises(k: int, rest: seq<int>)
    requires Rising(rest) && forall n :: n in rest ==> k < n
    ensures Rising([k] + rest)
  {
    assert forall j :: 0 <= j < |rest| ==> rest[j] in rest;
  }

  lemma {:induction false} FoundRising(rising: seq<int>, matches: int -> bool, k: int)
    ensures Rising(Found(rising, matches, k))
  {
    hide Rising;
    if rising != [] {
      FoundRising(rising[1..], matches, k + 1);
      var rest := Found(rising[1..], matches, k + 1);
      forall n | n in rest
        ensures k < n
      {
        FoundAt(rising[1..], matches, k + 1, n);
      }
      if matches(rising[0]) {
        PrependRises(k, rest);
      } else {
        assert [] + rest == rest;
      }
    } else {
      NothingRises();
    }
  }

  lemma NothingRises()
    ensures Rising([])
  {
  }

  /** A number is printed exactly if the row that has it matches, each once and in rising order. */
  lemma PrintedExactly(rows: seq<int>, matches: int -> bool)
    ensures Rising(Found(Reversed(rows), matches, 1))
    ensures forall i :: 0 <= i < |rows| ==> (NumberOf(rows, i) in Found(Reversed(rows), matches, 1) <==> matches(rows[i]))
    ensures forall n :: n in Found(Reversed(rows), matches, 1) ==> 1 <= n <= |rows| && NumberOf(rows, |rows| - n) == n
  {
    FoundRising(Reversed(rows), matches, 1);
    forall n: int
      ensures n in Found(Reversed(rows), matches, 1) <==> 1 <= n <= |rows| && matches(rows[|rows| - n])
    {
      FoundAt(Reversed(rows), matches, 1, n);
    }
  }

  // ----- when the numbers are those of the client's list -----

  // The number of each row denotes, in the list, the mail of that row.
  predicate NumbersRight(rows: seq<int>, ms: seq<Msg>) {
    forall i :: 0 <= i < |rows| ==> 1 <= NumberOf(rows, i) <= |ms| && ms[NumberOf(rows, i) - 1].mailId == rows[i]
  }

  function MailSeq(ms: seq<Msg>): seq<int> {
    seq(|ms|, i requires 0 <= i < |ms| => ms[i].mailId)
  }

  predicate Rising(ids: seq<int>) {
    forall i, j :: 0 <= i < j < |ids| ==> ids[i] < ids[j]
  }

  function Members(ids: seq<int>): set<int> {
    set x | x in ids
  }

  lemma First(a: seq<int>)
    ensures a != [] ==> a[0] in Members(a)
  {
  }

  lemma {:induction false} RisingUnique(a: seq<int>, b: seq<int>)
    requires Rising(a) && Rising(b) && Members(a) == Members(b)
    ensures a == b
  {
    if a == [] || b == [] {
      First(a);
      First(b);
    } else {
      assert a[0] in Members(b) && b[0] in Members(a);
      assert a[0] == b[0];
      RestMembers(a);
      RestMembers(b);
      RisingUnique(a[1..], b[1..]);
      assert a == [a[0]] + a[1..] && b == [b[0]] + b[1..];
    }
  }

  lemma RestMembers(a: seq<int>)
    requires a != [] && Rising(a)
    ensures Members(a[1..]) == Members(a) - {a[0]}
  {
    assert a == [a[0]] + a[1..];
    assert forall i :: 0 < i < |a| ==> a[i] != a[0];
  }

  lemma ReversedRises(rows: seq<int>)
    requires Falling(rows)
    ensures Rising(Reversed(rows)) && Members(Reversed(rows)) == Members(rows)
  {
    var r := Reversed(rows);
    forall x | x in rows
      ensures x in r
    {
      var i :| 0 <= i < |rows| && rows[i] == x;
      assert r[|rows| - 1 - i] == x;
    }
  }

  lemma RightMeans(rows: seq<int>, ms: seq<Msg>)
    ensures NumbersRight(rows, ms) <==> |rows| <= |ms| && MailSeq(ms[..|rows|]) == Reversed(rows)
  {
    var n := |rows|;
    if NumbersRight(rows, ms) && n > 0 {
      assert NumberOf(rows, 0) == n;
      forall i | 0 <= i < n
        ensures ms[i].mailId == Reversed(rows)[i]
      {
        assert NumberOf(rows, n - 1 - i) == i + 1;
      }
    }
    if n <= |ms| && MailSeq(ms[..n]) == Reversed(rows) {
      forall i | 0 <= i < n
        ensures ms[NumberOf(rows, i) - 1].mailId == rows[i]
      {
        assert MailSeq(ms[..n])[n - i - 1] == Reversed(rows)[n - i - 1];
      }
    }
  }

  /** All numbers of a SEARCH are those of the client's list exactly if its first messages, as
      many as there are rows, are the mails of the rows, in the order of their mail ids. */
  lemma SearchNumbersIff(ids: set<int>, limit: nat, rows: seq<int>, ms: seq<Msg>)
    requires Answer(ids, limit, rows)
    ensures NumbersRight(rows, ms) <==>
      |rows| <= |ms| && Rising(MailSeq(ms[..|rows|])) && Members(MailSeq(ms[..|rows|])) == Members(rows)
  {
    RightMeans(rows, ms);
    ReversedRises(rows);
    if |rows| <= |ms| && Rising(MailSeq(ms[..|rows|])) && Members(MailSeq(ms[..|rows|])) == Members(rows) {
      RisingUnique(MailSeq(ms[..|rows|]), Reversed(rows));
    }
  }

  lemma AllRows(ids: set<int>, rows: seq<int>)
    requires Answer(ids, 0, rows)
    ensures Members(rows) == ids
  {
    MembersCount(rows);
    assert Members(rows) <= ids;
    SameSize(Members(rows), ids);
  }

  lemma SameSize<T>(a: set<T>, b: set<T>)
    requires a <= b && |a| == |b|
    ensures a == b
  {
    assert b == a + (b - a);
  }

  lemma {:induction false} MembersCount(rows: seq<int>)
    requires Falling(rows)
    ensures |Members(rows)| == |rows|
  {
    if rows != [] {
      MembersCount(rows[1..]);
      assert rows == [rows[0]] + rows[1..];
      assert Members(rows) == {rows[0]} + Members(rows[1..]);
      assert rows[0] !in rows[1..];
    }
  }

  /** Without a limit, and with the same mails in list and folder, the numbers are right exactly
      if the mail ids rise along the list, that is, if no mail was given its UID before a mail
      of lower id. */
  lemma UnlimitedSearchIff(ids: set<int>, rows: seq<int>, ms: seq<Msg>)
    requires Answer(ids, 0, rows) && Members(MailSeq(ms)) == ids && |ms| == |ids|
    ensures NumbersRight(rows, ms) <==> Rising(MailSeq(ms))
  {
    SearchNumbersIff(ids, 0, rows, ms);
    AllRows(ids, rows);
    assert ms[..|rows|] == ms;
  }

  /** With a limit that is exceeded they are never right: as many rows are read as the limit
      says, and the list has one message less. */
  lemma LimitedSearchWrong(db: Db, folder: int, limit: nat, rows: seq<int>)
    requires DbValid(db) && limit >= 1 && |FolderIds(db.mails, folder)| > limit
    requires Answer(FolderIds(db.mails, folder), limit, rows)
    ensures !NumbersRight(rows, FetchList(db, folder, limit))
  {
    RowsFacts(db.mails, db.uids, folder);
    var rs := RowsOf(db.mails, db.uids, folder);
    FetchedFacts(db.uids, rs, limit);
    RowCount(rs);
    SearchNumbersIff(FolderIds(db.mails, folder), limit, rows, FetchList(db, folder, limit));
  }

  lemma {:induction false} RowCount(rows: seq<Row>)
    requires DistinctMails(rows)
    ensures |MailIds(rows)| == |rows|
  {
    if rows != [] {
      RowCount(rows[1..]);
    }
  }

  /** A mail moved into the folder later, with a lower mail id: the number printed for the
      deleted mail is that of the other one. */
  lemma SearchNamesAnother()
    ensures var ms := [Msg(1, 7, 1, FLAG_DELETED, 0), Msg(2, 5, 2, 0, 0)];
      && Answer({5, 7}, 0, [7, 5]) && Found(Reversed([7, 5]), x => x == 7, 1) == [2]
      && ms[2 - 1].mailId == 5 && !NumbersRight([7, 5], ms)
  {
    var ms := [Msg(1, 7, 1, FLAG_DELETED, 0), Msg(2, 5, 2, 0, 0)];
    var f: int -> bool := x => x == 7;
    assert Reversed([7, 5]) == [5, 7] && [5, 7][1..] == [7] && [7][1..] == [];
    assert Found([7], f, 2) == [2] + Found([], f, 3);
    assert Found([5, 7], f, 1) == [] + Found([7], f, 2);
    assert NumberOf([7, 5], 0) == 2 && ms[1].mailId != [7, 5][0];
  }
}
