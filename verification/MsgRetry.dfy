/** How often the message queue tries: the waiting between attempts, flushes of the queue
    included, and the end of all work when no mail arrives. */
module MsgRetry {
  import opened ThreadPool
  import opened MsgQueue
  import opened MsgHistory
  import opened Sets

  // ----- waiting times -----

  // The least time from the first to the k-th failed attempt.
  function Wait(retry: nat, k: nat): nat {
    if k <= 1 then 0 else Wait(retry, k - 1) + retry * (k - 1) + 1
  }

  lemma {:induction false} WaitIsQuadratic(retry: nat, k: nat)
    requires k >= 1
    ensures 2 * Wait(retry, k) == retry * k * (k - 1) + 2 * (k - 1)
  {
    if k > 1 {
      WaitIsQuadratic(retry, k - 1);
      NextSquare(retry, k);
    }
  }

  lemma NextSquare(retry: nat, k: nat)
    requires k > 1
    ensures retry * (k - 1) * (k - 2) + 2 * (retry * (k - 1)) == retry * k * (k - 1)
  {
    var x := retry * (k - 1);
    assert x * (k - 2) + 2 * x == x * k;
    assert x * k == retry * k * (k - 1);
  }

  lemma {:induction false} WaitAtLeast(retry: nat, k: nat)
    requires k >= 1
    ensures Wait(retry, k) >= k - 1
  {
    if k > 1 {
      WaitAtLeast(retry, k - 1);
      assert retry * (k - 1) >= 0;
    }
  }

  // The same for a number of attempts less a number of flushes.
  function Waited(retry: nat, k: int): nat {
    Wait(retry, if k < 0 then 0 else k)
  }

  lemma WaitedStep(retry: nat, k: int)
    ensures Waited(retry, k) <= Waited(retry, k + 1) <= Waited(retry, k) + retry * (if k < 0 then 0 else k) + 1
  {
    if k >= 1 {
      assert retry * k >= 0;
    }
  }

  // ----- pacing -----

  /** f flushes have happened so far. A row has failed no more often than its lifetime allows
      with f of the waits skipped; and its last failure came late enough, or it has been
      flushed since and one of the f flushes has not been used for it. */
  predicate PacedRow(c: Config, row: Row, now: int, f: nat) {
    var a := row.item;
    && a.date <= now
    && (a.attempts > 0 ==>
      && Waited(c.retry, a.attempts - f) <= c.lifetime
      && (a.date + Waited(c.retry, a.attempts - f) <= row.lastAttempt <= now
          || a.date + Waited(c.retry, a.attempts + 1 - f) <= now))
  }

  // What makes another attempt on time; it goes on to hold while the item is being worked on.
  predicate OnTime(c: Config, a: Item, now: int, f: nat) {
    a.date + Waited(c.retry, a.attempts + 1 - f) <= now
  }

  lemma DueIsOnTime(c: Config, row: Row, now: int, f: nat)
    requires PacedRow(c, row, now, f) && Due(c, row, now)
    ensures OnTime(c, row.item, now, f)
  {
    var k := row.item.attempts - f;
    WaitedStep(c.retry, k);
    Monotone(c.retry, if k < 0 then 0 else k, row.item.attempts);
    assert c.retry * row.item.attempts == row.item.attempts * c.retry;
  }

  lemma Monotone(m: nat, a: nat, b: nat)
    requires a <= b
    ensures m * a <= m * b
  {
  }

  lemma FailedIsPaced(c: Config, a: Item, now: int, f: nat, deleted: bool)
    requires OnTime(c, a, now, f) && !Expired(c, a, now)
    ensures PacedRow(c, Row(Failed(a), now, false, deleted), now, f)
  {
  }

  lemma FlushedIsPaced(c: Config, row: Row, now: int, f: nat)
    requires PacedRow(c, row, now, f)
    ensures PacedRow(c, row.(lastAttempt := 0), now, f + 1) && PacedRow(c, row, now, f + 1)
    ensures OnTime(c, row.item, now, f) ==> OnTime(c, row.item, now, f + 1)
  {
    var k := row.item.attempts - f;
    WaitedStep(c.retry, k - 1);
    WaitedStep(c.retry, k);
  }

  lemma LaterIsPaced(c: Config, row: Row, now: int, d: nat, f: nat)
    requires PacedRow(c, row, now, f)
    ensures PacedRow(c, row, now + d, f) && (OnTime(c, row.item, now, f) ==> OnTime(c, row.item, now + d, f))
  {
  }

  ghost predicate PaceInv(c: Config, q: Queue, f: nat) {
    && (forall id :: id in q.rows ==> PacedRow(c, q.rows[id], q.now, f))
    && (forall a :: a in Held(q) ==> OnTime(c, a, q.now, f))
  }

  function Flushes(xs: seq<Action>): nat {
    if xs == [] then 0 else (if xs[0].Flush? then 1 else 0) + Flushes(xs[1..])
  }

  // ----- every action keeps the pace -----

  // The items held change only when the pool is filled or a result is saved.
  lemma HeldAfter(c: Config, q: Queue, x: Action)
    requires QueueInv(c, q) && Possible(c, q, x)
    ensures forall a :: a in Held(Do(c, q, x)) ==> a in Held(q) || (x.FillPool? && a in q.work)
  {
    hide Owned, Inv, InHand, Saved, Selection, Picked, AddAll, Activated, Flushed, Deactivated;
    if x.FillPool? {
      FillKeeps(c, q, x.picks);
      assert forall a :: a in multiset(q.work) ==> a in q.work;
    } else if x.PoolStep? {
      PoolStepKeeps(c, q, x.s);
    } else if x.WorkDone? {
      WorkDoneHeld(c, q, x.t, x.status);
    } else if x.SwapResults? {
      SwapKeeps(c, q);
    } else if x.SaveResult? {
      SaveHeld(q, Do(c, q, x));
    } else if x.ClearQueue? {
      ClearKeeps(c, q);
    } else {
      SameHeld(q, Do(c, q, x));
    }
  }

  lemma SameHeld(q: Queue, r: Queue)
    requires r.pool == q.pool && r.results == q.results && r.saving == q.saving
    ensures Held(r) == Held(q)
  {
  }

  lemma HeldRows(c: Config, q: Queue, a: Item)
    requires QueueInv(c, q) && a in Held(q)
    ensures a.id in q.rows && q.rows[a.id].item == a
  {
    hide Inv, Held, WorkReady;
    assert HeldRow(q.rows, a, q.batch, q.apart);
  }

  // Rows of the table after an action other than a flush.
  lemma RowsPaced(c: Config, q: Queue, x: Action, f: nat)
    requires QueueInv(c, q) && Possible(c, q, x) && PaceInv(c, q, f) && !x.Flush? && !x.SaveResult? && !x.Tick?
    ensures forall id :: id in Do(c, q, x).rows ==> PacedRow(c, Do(c, q, x).rows[id], Do(c, q, x).now, f)
  {
    hide Inv, Held, Owned, Enabled, Selection, Waited, AddAll, Next;
  }

  lemma SavedPaced(c: Config, q: Queue, e: Enqueue, f: nat)
    requires QueueInv(c, q) && Possible(c, q, SaveResult(e)) && PaceInv(c, q, f)
    ensures var rows := Saved(c, q.rows, q.saving[0], e, q.now);
      forall id :: id in rows ==> PacedRow(c, rows[id], q.now, f)
  {
    hide Held, QueueInv, Waited;
    var r := q.saving[0];
    NextResult(c, q);
    if !Terminal(c, r, q.now) {
      FailedIsPaced(c, r.item, q.now, f, q.rows[r.item.id].deleted);
    }
  }

  lemma TickPaced(c: Config, q: Queue, d: nat, f: nat)
    requires PaceInv(c, q, f) && QueueInv(c, q)
    ensures PaceInv(c, q.(now := q.now + d), f)
  {
    hide QueueInv, PacedRow, OnTime, Held;
    var r := q.(now := q.now + d);
    SameHeld(q, r);
    forall id | id in q.rows
      ensures PacedRow(c, q.rows[id], r.now, f)
    {
      LaterIsPaced(c, q.rows[id], q.now, d, f);
    }
    forall a | a in Held(r)
      ensures OnTime(c, a, r.now, f)
    {
      HeldRows(c, q, a);
      LaterIsPaced(c, q.rows[a.id], q.now, d, f);
    }
  }

  lemma FlushPaced(c: Config, q: Queue, f: nat)
    requires QueueInv(c, q) && Possible(c, q, Flush) && PaceInv(c, q, f)
    ensures PaceInv(c, Do(c, q, Flush), f + 1)
  {
    hide QueueInv, PacedRow, OnTime, Held;
    var r := Do(c, q, Flush);
    SameHeld(q, r);
    forall id | id in r.rows
      ensures PacedRow(c, r.rows[id], r.now, f + 1)
    {
      FlushedIsPaced(c, q.rows[id], q.now, f);
    }
    forall a | a in Held(r)
      ensures OnTime(c, a, r.now, f + 1)
    {
      HeldRows(c, q, a);
      FlushedIsPaced(c, q.rows[a.id], q.now, f);
    }
  }

  lemma WorkOnTime(c: Config, q: Queue, f: nat)
    requires QueueInv(c, q) && PaceInv(c, q, f)
    ensures forall a :: a in q.work ==> OnTime(c, a, q.now, f)
  {
    hide Inv, Held, Owned, PacedRow, OnTime, Due;
    forall a | a in q.work
      ensures OnTime(c, a, q.now, f)
    {
      assert Eligible(c, q.rows[a.id], q.now);
      DueIsOnTime(c, q.rows[a.id], q.now, f);
    }
  }

  /** Every action keeps the pace; a flush uses up one. */
  lemma ActionPaces(c: Config, q: Queue, x: Action, f: nat)
    requires QueueInv(c, q) && Possible(c, q, x) && PaceInv(c, q, f)
    ensures PaceInv(c, Do(c, q, x), f + if x.Flush? then 1 else 0)
  {
    hide QueueInv, PacedRow, OnTime, Held, Enabled, Selection, Saved, Flushed, AddAll, Next;
    if x.Tick? {
      TickPaced(c, q, x.d, f);
    } else if x.Flush? {
      FlushPaced(c, q, f);
    } else {
      HeldAfter(c, q, x);
      WorkOnTime(c, q, f);
      if x.SaveResult? {
        SavedPaced(c, q, x.e, f);
      } else {
        RowsPaced(c, q, x, f);
      }
    }
  }

  lemma {:induction false} HistoryPaces(c: Config, q: Queue, xs: seq<Action>, f: nat)
    requires QueueInv(c, q) && IsHistory(c, q, xs) && PaceInv(c, q, f)
    ensures PaceInv(c, Later(c, q, xs), f + Flushes(xs))
    decreases |xs|
  {
    hide QueueInv, Possible, Do, PaceInv;
    if xs != [] {
      ActionKeeps(c, q, xs[0]);
      ActionPaces(c, q, xs[0], f);
      HistoryPaces(c, Do(c, q, xs[0]), xs[1..], f + if xs[0].Flush? then 1 else 0);
    }
  }

  // The rows that Run finds: none has failed too often or too early.
  predicate InitiallyPaced(c: Config, q: Queue) {
    forall id :: id in q.rows ==> PacedRow(c, q.rows[id], q.now, 0)
  }

  lemma InitialPace(c: Config, q: Queue, threadCount: nat, maxGrow: nat)
    requires Initial(q, threadCount, maxGrow) && InitiallyPaced(c, q)
    ensures PaceInv(c, q, 0)
  {
    hide PacedRow, OnTime;
    assert Items(q.results) == [] && Items(q.saving) == [];
    assert Held(q) == multiset{};
  }

  /** Of the waits before its k-th attempt an item has been spared at most one for each flush,
      so with j = k - f it satisfies retry * j * (j - 1) / 2 + (j - 1) <= lifetime. */
  lemma RetryBound(c: Config, row: Row, now: int, f: nat)
    requires PacedRow(c, row, now, f) && row.item.attempts > f
    ensures var j := row.item.attempts - f; c.retry * j * (j - 1) + 2 * (j - 1) <= 2 * c.lifetime
  {
    WaitIsQuadratic(c.retry, row.item.attempts - f);
  }

  /** The quadratic bound, for every row at every moment of every history with any number of
      flushes; without one it is that of k attempts. */
  lemma RetryBoundAlways(c: Config, q: Queue, xs: seq<Action>, threadCount: nat, maxGrow: nat, id: int)
    requires Initial(q, threadCount, maxGrow) && InitiallyPaced(c, q) && IsHistory(c, q, xs)
    requires id in Later(c, q, xs).rows
    ensures var j := Later(c, q, xs).rows[id].item.attempts - Flushes(xs);
      j >= 1 ==> c.retry * j * (j - 1) + 2 * (j - 1) <= 2 * c.lifetime
  {
    hide Held, QueueInv, Initial, InitiallyPaced, PacedRow, Later, IsHistory, OnTime;
    InitialInv(c, q, threadCount, maxGrow);
    InitialPace(c, q, threadCount, maxGrow);
    HistoryPaces(c, q, xs, 0);
    var r := Later(c, q, xs);
    if r.rows[id].item.attempts > Flushes(xs) {
      RetryBound(c, r.rows[id], r.now, Flushes(xs));
    }
  }

  // ----- the work is finite -----

  // The chances an item still has when there are at most n flushes: up to lifetime + n + 2
  // results of its own, and as many for the bounce it may turn into.
  function Chances(c: Config, n: nat, a: Item): nat {
    (if |a.from| >= 5 then 2 else 1) * (c.lifetime + n + 2)
  }

  // The most that one more row can bring.
  function Allowance(c: Config, n: nat): nat {
    2 * (c.lifetime + n + 2)
  }

  // One element for each chance left.
  function Slots(c: Config, n: nat, rows: Rows): set<(int, int)> {
    set id, k | id in rows && rows[id].item.attempts <= k < Chances(c, n, rows[id].item) :: (id, k)
  }

  function ChancesLeft(c: Config, n: nat, rows: Rows): nat {
    |Slots(c, n, rows)|
  }

  // Removing a row removes its column.
  lemma RemoveSlots(c: Config, n: nat, rows: Rows, id: int)
    requires id in rows && rows[id].item.attempts <= Chances(c, n, rows[id].item)
    ensures ChancesLeft(c, n, rows - {id}) == ChancesLeft(c, n, rows) - (Chances(c, n, rows[id].item) - rows[id].item.attempts)
  {
    var column := Column(id, rows[id].item.attempts, Chances(c, n, rows[id].item));
    ColumnSize(id, rows[id].item.attempts, Chances(c, n, rows[id].item));
    assert Slots(c, n, rows) == Slots(c, n, rows - {id}) + column;
    assert Slots(c, n, rows - {id}) !! column;
  }

  lemma InsertSlots(c: Config, n: nat, rows: Rows, id: int, row: Row)
    requires id !in rows && row.item.attempts <= Chances(c, n, row.item)
    ensures ChancesLeft(c, n, rows[id := row]) == ChancesLeft(c, n, rows) + (Chances(c, n, row.item) - row.item.attempts)
  {
    assert rows[id := row] - {id} == rows;
    RemoveSlots(c, n, rows[id := row], id);
  }

  lemma PacedHasChance(c: Config, n: nat, row: Row, now: int, f: nat)
    requires PacedRow(c, row, now, f) && f <= n
    ensures row.item.attempts <= c.lifetime + n + 1 < Chances(c, n, row.item)
  {
    if row.item.attempts > f {
      WaitAtLeast(c.retry, row.item.attempts - f);
    }
  }

  // Every saved result uses up a chance.
  lemma SaveUsesChance(c: Config, n: nat, rows: Rows, r: Result, e: Enqueue, now: int, f: nat)
    requires Fresh(rows, e) && r.item.id in rows && rows[r.item.id].item == r.item
    requires PacedRow(c, rows[r.item.id], now, f) && f <= n
    ensures ChancesLeft(c, n, Saved(c, rows, r, e, now)) < ChancesLeft(c, n, rows)
  {
    hide ChancesLeft, PacedRow;
    var a := r.item;
    PacedHasChance(c, n, rows[a.id], now, f);
    RemoveSlots(c, n, rows, a.id);
    if !Terminal(c, r, now) {
      var row := Row(Failed(a), now, false, rows[a.id].deleted);
      InsertSlots(c, n, rows - {a.id}, a.id, row);
      assert (rows - {a.id})[a.id := row] == rows[a.id := row];
    } else if r.status != Success && Bounces(a) && !e.NoQueueFile? {
      var more := Bounce(rows, a, e, now);
      InsertSlots(c, n, rows, e.id, more[e.id]);
      RemoveSlots(c, n, more, a.id);
    }
  }

  lemma FewerSlots(c: Config, n: nat, rows: Rows, rows': Rows)
    requires forall id :: id in rows' ==> id in rows && rows'[id].item == rows[id].item
    ensures ChancesLeft(c, n, rows') <= ChancesLeft(c, n, rows)
  {
    assert Slots(c, n, rows') <= Slots(c, n, rows);
    SubsetSize(Slots(c, n, rows'), Slots(c, n, rows));
  }

  lemma ActionChances(c: Config, n: nat, q: Queue, x: Action, f: nat)
    requires QueueInv(c, q) && Possible(c, q, x) && PaceInv(c, q, f) && f <= n
    ensures ChancesLeft(c, n, Do(c, q, x).rows) + Saves([x]) <= ChancesLeft(c, n, q.rows) + Inserts([x]) * Allowance(c, n)
  {
    hide ChancesLeft, QueueInv, Enabled, Selection, Saved, PacedRow, Held;
    assert [x][1..] == [];
    if x.SaveResult? {
      NextResult(c, q);
      SaveUsesChance(c, n, q.rows, q.saving[0], x.e, q.now, f);
    } else if x.ForeignInsert? {
      InsertSlots(c, n, q.rows, x.id, Do(c, q, x).rows[x.id]);
    } else {
      OtherAction(c, q, x);
      FewerSlots(c, n, q.rows, Do(c, q, x).rows);
    }
  }

  lemma CountOne(x: Action, xs: seq<Action>)
    ensures Saves([x] + xs) == Saves([x]) + Saves(xs) && Inserts([x] + xs) == Inserts([x]) + Inserts(xs)
    ensures Flushes([x] + xs) == (if x.Flush? then 1 else 0) + Flushes(xs)
  {
    assert ([x] + xs)[1..] == xs && [x][1..] == [];
  }

  /** The work is finite: in a whole history with at most n flushes, the results saved and the
      chances that are left at its end are together no more than the chances there were at
      its start, plus those of mail that arrived meanwhile. */
  lemma {:induction false} SavesBounded(c: Config, n: nat, q: Queue, xs: seq<Action>, f: nat)
    requires QueueInv(c, q) && IsHistory(c, q, xs) && PaceInv(c, q, f) && f + Flushes(xs) <= n
    ensures ChancesLeft(c, n, Later(c, q, xs).rows) + Saves(xs)
         <= ChancesLeft(c, n, q.rows) + Inserts(xs) * Allowance(c, n)
    decreases |xs|
  {
    hide ChancesLeft, QueueInv, Possible, Do, Allowance, PaceInv;
    if xs != [] {
      var x := xs[0];
      assert xs == [x] + xs[1..];
      CountOne(x, xs[1..]);
      ActionKeeps(c, q, x);
      ActionChances(c, n, q, x, f);
      ActionPaces(c, q, x, f);
      SavesBounded(c, n, Do(c, q, x), xs[1..], f + if x.Flush? then 1 else 0);
      Distribute(Inserts([x]), Inserts(xs[1..]), Allowance(c, n));
    }
  }

  lemma Distribute(a: int, b: int, m: int)
    ensures (a + b) * m == a * m + b * m
  {
  }

  /** When no mail arrives, a queue is worked off: from a table of n rows, with f flushes, at
      most 2 (lifetime + f + 2) n results are ever saved, however long the history. */
  lemma WorkEnds(c: Config, q: Queue, xs: seq<Action>, threadCount: nat, maxGrow: nat)
    requires Initial(q, threadCount, maxGrow) && InitiallyPaced(c, q) && IsHistory(c, q, xs) && Inserts(xs) == 0
    ensures Saves(xs) <= |q.rows.Keys| * (2 * (c.lifetime + Flushes(xs) + 2))
  {
    hide Inv, Held, IsHistory, Initial, QueueInv, InitiallyPaced, PaceInv;
    var f := Flushes(xs);
    InitialInv(c, q, threadCount, maxGrow);
    InitialPace(c, q, threadCount, maxGrow);
    SavesBounded(c, f, q, xs, 0);
    PairsSize(q.rows.Keys, Allowance(c, f));
    SlotsInPairs(c, f, q);
    SubsetSize(Slots(c, f, q.rows), Pairs(q.rows.Keys, Allowance(c, f)));
  }

  lemma SlotsInPairs(c: Config, n: nat, q: Queue)
    ensures Slots(c, n, q.rows) <= Pairs(q.rows.Keys, Allowance(c, n))
  {
    forall p | p in Slots(c, n, q.rows)
      ensures p in Pairs(q.rows.Keys, Allowance(c, n))
    {
      assert p.0 in q.rows && 0 <= p.1 < Allowance(c, n);
    }
  }
}
