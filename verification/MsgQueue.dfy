/** The life of a queue item: database row, pool queue, worker, results, and then deleted,
    bounced or deferred. */
module MsgQueue {
  import opened ThreadPool

  const QUEUE_RUN_MAX: nat := 1000

  datatype Config = Config(retry: nat, lifetime: nat)

  // What ProcessQueue reads of a row and goes on to use, and what the row holds beside it.
  datatype Item = Item(id: int, date: int, from: string, to: string, attempts: nat)

  datatype Row = Row(item: Item, lastAttempt: int, active: bool, deleted: bool)

  type Rows = map<int, Row>

  datatype Status = Success | UnknownError | TemporaryError | FatalError | InvalidItem

  datatype Result = Result(item: Item, status: Status)

  /** How EnqueueMessage ends for a bounce: released; returned early because no temporary
      file could be made, with the row left active; or row removed again because the queue
      file could not be written. */
  datatype Enqueue = Released(id: int) | NoTempFile(id: int) | NoQueueFile

  // ----- BounceMessage -----

  function Lower(c: char): char {
    if 'A' <= c <= 'Z' then (c as int + 32) as char else c
  }

  predicate SameAddress(a: string, b: string) {
    |a| == |b| && forall i :: 0 <= i < |a| ==> Lower(a[i]) == Lower(b[i])
  }

  predicate Bounces(a: Item) {
    |a.from| >= 5 && !SameAddress(a.from, a.to)
  }

  function BounceItem(a: Item, id: int, now: int): Item {
    Item(id, now, "", a.from, 0)
  }

  predicate Fresh(rows: Rows, e: Enqueue) {
    e.NoQueueFile? || e.id !in rows
  }

  function Bounce(rows: Rows, a: Item, e: Enqueue, now: int): Rows
    requires Fresh(rows, e)
  {
    if !Bounces(a) then rows
    else match e
      case Released(id) => rows[id := Row(BounceItem(a, id, now), 0, false, false)]
      case NoTempFile(id) => rows[id := Row(BounceItem(a, id, now), 0, true, false)]
      case NoQueueFile => rows
  }

  // ----- ProcessResult -----

  predicate Expired(c: Config, a: Item, now: int) {
    a.date + c.lifetime < now
  }

  predicate Terminal(c: Config, r: Result, now: int) {
    r.status == Success || r.status == FatalError || Expired(c, r.item, now)
  }

  function Failed(a: Item): Item {
    a.(attempts := a.attempts + 1)
  }

  function Saved(c: Config, rows: Rows, r: Result, e: Enqueue, now: int): Rows
    requires Fresh(rows, e) && r.item.id in rows
  {
    var a := r.item;
    if r.status == Success then rows - {a.id}
    else if r.status == FatalError || Expired(c, a, now) then
      (if |a.from| > 3 then Bounce(rows, a, e, now) else rows) - {a.id}
    else rows[a.id := Row(Failed(a), now, false, rows[a.id].deleted)]
  }

  // The row that a failed enqueue leaves behind.
  function Left(c: Config, r: Result, e: Enqueue, now: int): set<int> {
    if r.status != Success && Terminal(c, r, now) && Bounces(r.item) && e.NoTempFile? then {e.id} else {}
  }

  // ----- no bounce loops -----

  /** A saved result adds a row exactly if delivery has failed for good, the return path can
      be answered and the bounce can be enqueued. That row is addressed to the return path,
      has an empty one itself and can never be bounced. */
  lemma BouncesAreNotBounced(c: Config, rows: Rows, r: Result, e: Enqueue, now: int)
    requires Fresh(rows, e) && r.item.id in rows
    ensures var after := Saved(c, rows, r, e, now);
      && ((exists id :: id in after && id !in rows) <==>
          r.status != Success && Terminal(c, r, now) && Bounces(r.item) && !e.NoQueueFile?)
      && forall id :: id in after && id !in rows ==>
          var b := after[id];
          b.item == Item(id, now, "", r.item.from, 0) && b.lastAttempt == 0 && !Bounces(b.item) && (b.active <==> e.NoTempFile?)
  {
    var after := Saved(c, rows, r, e, now);
    if r.status != Success && Terminal(c, r, now) && Bounces(r.item) && !e.NoQueueFile? {
      assert e.id in after && e.id !in rows;
    }
  }

  function Ordinary(rows: Rows): set<int> {
    set id | id in rows && |rows[id].item.from| >= 5
  }

  // Two for a message that may be bounced, one for any other.
  function Weight(rows: Rows): nat {
    |rows.Keys| + |Ordinary(rows)|
  }

  lemma RemoveWeight(rows: Rows, id: int)
    requires id in rows
    ensures Weight(rows - {id}) == Weight(rows) - (if id in Ordinary(rows) then 2 else 1)
  {
    assert (rows - {id}).Keys == rows.Keys - {id};
    assert Ordinary(rows - {id}) == Ordinary(rows) - {id};
  }

  lemma InsertWeight(rows: Rows, id: int, row: Row)
    requires id !in rows && row.item.from == ""
    ensures Weight(rows[id := row]) == Weight(rows) + 1
    ensures Ordinary(rows[id := row]) == Ordinary(rows)
  {
    assert rows[id := row].Keys == rows.Keys + {id};
    assert Ordinary(rows[id := row]) == Ordinary(rows);
  }

  /** The total weight of all pending messages falls with every terminal result and is
      not changed by a deferral. */
  lemma TerminalWeightFalls(c: Config, rows: Rows, r: Result, e: Enqueue, now: int)
    requires Fresh(rows, e) && r.item.id in rows && rows[r.item.id].item == r.item
    ensures Terminal(c, r, now) ==> Weight(Saved(c, rows, r, e, now)) < Weight(rows)
    ensures !Terminal(c, r, now) ==> Weight(Saved(c, rows, r, e, now)) == Weight(rows)
  {
    var a := r.item;
    if !Terminal(c, r, now) {
      var rows' := Saved(c, rows, r, e, now);
      assert rows'.Keys == rows.Keys && Ordinary(rows') == Ordinary(rows);
    } else {
      RemoveWeight(rows, a.id);
      if r.status != Success && Bounces(a) && !e.NoQueueFile? {
        var rows' := Bounce(rows, a, e, now);
        InsertWeight(rows, e.id, rows'[e.id]);
        RemoveWeight(rows', a.id);
        assert a.id in Ordinary(rows);
      }
    }
  }

  // ----- who owns what -----

  predicate HeldRow(rows: Rows, a: Item, batch: set<int>, apart: set<int>) {
    && a.id in rows && rows[a.id].item == a && (rows[a.id].active || a.id in batch)
    && a.id !in apart
  }

  /** held: the items in the pool queue, in workers' hands and among the results. batch: ids
      queued but not yet marked active, inside ProcessQueue's locked section. apart: rows
      kept active by processes still writing them, or left so by a failed enqueue. */
  ghost predicate Owned(rows: Rows, held: multiset<Item>, batch: set<int>, apart: set<int>) {
    && (forall a :: a in held ==> held[a] == 1 && HeldRow(rows, a, batch, apart))
    && (forall id :: id in rows ==> rows[id].item.id == id)
    && (forall id :: id in rows && rows[id].active ==> rows[id].item in held || id in apart)
    && (forall id :: id in batch ==> id in rows && !rows[id].active && rows[id].item in held)
    && (forall id :: id in apart ==> id in rows && rows[id].active)
  }

  // No id is held twice, in whatever places.
  lemma HeldOnce(rows: Rows, held: multiset<Item>, batch: set<int>, apart: set<int>, a: Item, b: Item)
    requires Owned(rows, held, batch, apart) && a in held && b in held && a.id == b.id
    ensures a == b && held[a] == 1
  {
  }

  predicate DistinctIds(items: seq<Item>) {
    forall i, j :: 0 <= i < j < |items| ==> items[i].id != items[j].id
  }

  // The condition on the time of the last attempt in the SELECT.
  predicate Due(c: Config, row: Row, now: int) {
    row.lastAttempt < now - row.item.attempts * c.retry
  }

  predicate Eligible(c: Config, row: Row, now: int) {
    !row.deleted && !row.active && Due(c, row, now)
  }

  lemma {:induction false} CountOnce(items: seq<Item>, a: Item)
    requires DistinctIds(items) && a in items
    ensures multiset(items)[a] == 1
  {
    var n := |items| - 1;
    assert items == items[..n] + [items[n]];
    if a == items[n] {
      assert a !in items[..n];
      assert a !in multiset(items[..n]);
    } else {
      assert a in items[..n];
      CountOnce(items[..n], a);
    }
  }

  function Ids(items: seq<Item>): set<int> {
    set a | a in items :: a.id
  }

  lemma SelectOwned(c: Config, rows: Rows, held: multiset<Item>, apart: set<int>, now: int, items: seq<Item>)
    requires Owned(rows, held, {}, apart) && DistinctIds(items)
    requires Picked(c, rows, now, items)
    ensures Owned(rows, held + multiset(items), Ids(items), apart)
  {
    var all := held + multiset(items);
    forall a | a in all
      ensures all[a] == 1 && HeldRow(rows, a, Ids(items), apart)
    {
      if a in items {
        CountOnce(items, a);
        assert a !in held;
      } else {
        assert a !in multiset(items);
        assert a in held;
      }
    }
    forall id | id in Ids(items)
      ensures id in rows && !rows[id].active && rows[id].item in all
    {
      var a :| a in items && a.id == id;
      assert a in multiset(items);
    }
  }

  function Activated(rows: Rows, batch: set<int>): Rows {
    map id | id in rows :: if id in batch then rows[id].(active := true) else rows[id]
  }

  lemma ActivateOwned(rows: Rows, held: multiset<Item>, batch: set<int>, apart: set<int>)
    requires Owned(rows, held, batch, apart)
    ensures Owned(Activated(rows, batch), held, {}, apart)
  {
  }

  // One occurrence of a goes; nobody else holds its id.
  lemma ReleaseOne(rows: Rows, held: multiset<Item>, batch: set<int>, apart: set<int>, a: Item)
    requires Owned(rows, held, batch, apart) && a in held
    ensures var rest := held - multiset{a};
      && a.id in rows && rows[a.id].item == a && a.id !in apart
      && (forall b :: b in rest <==> b in held && b != a)
      && (forall b :: b in rest ==> rest[b] == 1 && b.id != a.id)
  {
    var rest := held - multiset{a};
    forall b
      ensures b in rest <==> b in held && b != a
      ensures b in rest ==> rest[b] == 1 && b.id != a.id
    {
      if b in rest {
        assert b in held;
        HeldOnce(rows, held, batch, apart, a, a);
        HeldOnce(rows, held, batch, apart, b, b);
      }
    }
  }

  lemma RemoveOwned(rows: Rows, held: multiset<Item>, apart: set<int>, a: Item)
    requires Owned(rows, held, {}, apart) && a in held
    ensures Owned(rows - {a.id}, held - multiset{a}, {}, apart)
  {
    ReleaseOne(rows, held, {}, apart, a);
  }

  lemma DeferOwned(rows: Rows, held: multiset<Item>, apart: set<int>, now: int, a: Item, deleted: bool)
    requires Owned(rows, held, {}, apart) && a in held
    ensures Owned(rows[a.id := Row(Failed(a), now, false, deleted)], held - multiset{a}, {}, apart)
  {
    ReleaseOne(rows, held, {}, apart, a);
  }

  lemma InsertOwned(rows: Rows, held: multiset<Item>, apart: set<int>, row: Row)
    requires Owned(rows, held, {}, apart) && row.item.id !in rows
    ensures Owned(rows[row.item.id := row], held, {}, apart + (if row.active then {row.item.id} else {}))
  {
  }

  lemma SaveOwned(c: Config, rows: Rows, held: multiset<Item>, apart: set<int>, now: int, r: Result, e: Enqueue)
    requires Owned(rows, held, {}, apart) && r.item in held && Fresh(rows, e)
    ensures r.item.id in rows
    ensures Owned(Saved(c, rows, r, e, now), held - multiset{r.item}, {}, apart + Left(c, r, e, now))
  {
    hide Owned, HeldRow, Expired;
    var a := r.item;
    ReleaseOne(rows, held, {}, apart, a);
    assert apart + {} == apart;
    if !Terminal(c, r, now) {
      DeferOwned(rows, held, apart, now, a, rows[a.id].deleted);
    } else if r.status != Success && Bounces(a) && !e.NoQueueFile? {
      var row := Bounce(rows, a, e, now)[e.id];
      InsertOwned(rows, held, apart, row);
      RemoveOwned(rows[e.id := row], held, apart + Left(c, r, e, now), a);
    } else {
      RemoveOwned(rows, held, apart, a);
    }
  }

  // ClearQueue: what is left in the pool queue goes back to the table.
  function Deactivated(rows: Rows, ids: set<int>): Rows {
    map id | id in rows :: if id in ids then rows[id].(active := false) else rows[id]
  }

  lemma ClearOwned(rows: Rows, items: seq<Item>, apart: set<int>)
    requires Owned(rows, multiset(items), {}, apart)
    ensures Owned(Deactivated(rows, Ids(items)), multiset{}, {}, apart)
    ensures forall id :: id in Deactivated(rows, Ids(items)) ==>
      (Deactivated(rows, Ids(items))[id].active <==> id in apart)
  {
    var rows' := Deactivated(rows, Ids(items));
    assert forall a :: a in multiset(items) <==> a in items;
    forall id | id in rows' && rows'[id].active
      ensures id in apart
    {
      assert id !in Ids(items);
      assert rows[id].item !in items;
    }
    forall id | id in Ids(items)
      ensures id !in apart
    {
      var a :| a in items && a.id == id;
      assert a in multiset(items);
    }
  }

  // ----- the whole queue -----

  // work: the items read but not yet handed to the pool; batch: the ids handed over but not
  // yet marked active; orphans: the part of apart that failed enqueues of this process have
  // left behind.
  datatype Queue = Queue(
    rows: Rows, pool: Pool<Item>, results: seq<Result>, saving: seq<Result>,
    work: seq<Item>, batch: set<int>, apart: set<int>, orphans: set<int>, now: int)

  // ProcessQueue holds the table lock.
  predicate Locked(q: Queue) {
    q.work != [] || q.batch != {}
  }

  function Items(rs: seq<Result>): seq<Item> {
    seq(|rs|, i requires 0 <= i < |rs| => rs[i].item)
  }

  ghost function Held(q: Queue): multiset<Item> {
    multiset(q.pool.queue) + InHand(q.pool.workers) + multiset(Items(q.results)) + multiset(Items(q.saving))
  }

  // picks: the threads that the system would signal for the items.
  function AddAll(p: Pool<Item>, items: seq<Item>, picks: seq<nat>): Pool<Item>
    decreases |items|
  {
    if items == [] then p
    else
      AddAll(Add(p, items[0], if picks == [] then 0 else picks[0]), items[1..], if picks == [] then [] else picks[1..])
  }

  // The control thread's flush: everything that is not deleted becomes due.
  function Flushed(rows: Rows): Rows {
    map id | id in rows :: if rows[id].deleted then rows[id] else rows[id].(lastAttempt := 0)
  }

  // ORDER BY attempts, last_attempt, id
  predicate Earlier(x: Row, y: Row) {
    || x.item.attempts < y.item.attempts
    || (x.item.attempts == y.item.attempts &&
         (x.lastAttempt < y.lastAttempt || (x.lastAttempt == y.lastAttempt && x.item.id < y.item.id)))
  }

  predicate InOrder(rows: Rows, items: seq<Item>) {
    forall i, j :: 0 <= i < j < |items| ==>
      items[i].id in rows && items[j].id in rows && Earlier(rows[items[i].id], rows[items[j].id])
  }

  function ItemsToRead(queued: nat): nat {
    if queued >= QUEUE_RUN_MAX then 0 else QUEUE_RUN_MAX - queued
  }

  predicate Picked(c: Config, rows: Rows, now: int, items: seq<Item>) {
    forall a :: a in items ==> a.id in rows && rows[a.id].item == a && Eligible(c, rows[a.id], now)
  }

  // SELECT ... ORDER BY ... LIMIT: the first items in order of all that qualify.
  predicate Selection(c: Config, rows: Rows, now: int, limit: nat, items: seq<Item>) {
    && |items| <= limit && Picked(c, rows, now, items)
    && InOrder(rows, items)
    && (forall id :: id in rows && Eligible(c, rows[id], now) && rows[id].item !in items ==>
          |items| == limit && forall a :: a in items ==> a.id in rows && Earlier(rows[a.id], rows[id]))
  }

  datatype Action =
    | Tick(d: nat)
    | ForeignInsert(id: int, from: string, to: string)
    | ForeignRelease(id: int)
    | ForeignDelete(id: int)
    | MarkDeleted(id: int)
    | ControlDelete(ids: set<int>)
    | Flush
    | SelectWork(items: seq<Item>)
    | FillPool(picks: seq<nat>)
    | Activate
    | PoolStep(s: Step<Item>)
    | WorkDone(t: nat, status: Status)
    | SwapResults
    | SaveResult(e: Enqueue)
    | ClearQueue

  /** Between SelectWork and Activate the table is locked and the main thread does nothing
      else; workers go on. Other processes insert rows that stay active until they release
      or delete them, mark rows as deleted, and delete rows that are not active; so does
      ProcessQueue with the rows that are marked. The control thread may flush the queue. */
  predicate Possible(c: Config, q: Queue, x: Action) {
    match x
    case Tick(_) => true
    case ForeignInsert(id, _, _) => !Locked(q) && id !in q.rows
    case ForeignRelease(id) => !Locked(q) && id in q.apart - q.orphans && id in q.rows
    case ForeignDelete(id) => !Locked(q) && id in q.apart - q.orphans && id in q.rows
    case MarkDeleted(id) => !Locked(q) && id in q.rows
    case ControlDelete(ids) => !Locked(q) && forall id :: id in ids && id in q.rows ==> !q.rows[id].active
    case Flush => !Locked(q)
    case SelectWork(items) => !Locked(q) && q.pool.run && |q.pool.workers| >= q.pool.threadCount
      && Selection(c, q.rows, q.now, ItemsToRead(|q.pool.queue|), items)
    case FillPool(_) => q.work != []
    case Activate => q.work == []
    case PoolStep(s) => Enabled(q.pool, s) && !s.MainAdd? && !s.WorkerFinish? && !s.MainClear? && (ByWorker(s) || !Locked(q))
    case WorkDone(t, _) => t < |q.pool.workers| && q.pool.workers[t].pc.Working?
    case SwapResults => !Locked(q) && q.saving == []
    case SaveResult(e) => !Locked(q) && q.saving != [] && q.saving[0].item.id in q.rows && Fresh(q.rows, e)
    case ClearQueue => !Locked(q) && Enabled(q.pool, MainClear) && q.results == [] && q.saving == []
  }

  function Do(c: Config, q: Queue, x: Action): Queue
    requires Possible(c, q, x)
  {
    match x
    case Tick(d) => q.(now := q.now + d)
    case ForeignInsert(id, from, to) =>
      q.(rows := q.rows[id := Row(Item(id, q.now, from, to, 0), 0, true, false)], apart := q.apart + {id})
    case ForeignRelease(id) => q.(rows := q.rows[id := q.rows[id].(active := false)], apart := q.apart - {id})
    case ForeignDelete(id) => q.(rows := q.rows - {id}, apart := q.apart - {id})
    case MarkDeleted(id) => q.(rows := q.rows[id := q.rows[id].(deleted := true)])
    case ControlDelete(ids) => q.(rows := q.rows - ids)
    case Flush => q.(rows := Flushed(q.rows))
    case SelectWork(items) => q.(work := items)
    case FillPool(picks) => q.(pool := AddAll(q.pool, q.work, picks), batch := Ids(q.work), work := [])
    case Activate => q.(rows := Activated(q.rows, q.batch), batch := {})
    case PoolStep(s) => q.(pool := Next(q.pool, s))
    case WorkDone(t, status) =>
      q.(results := q.results + [Result(q.pool.workers[t].pc.job, status)], pool := Finish(q.pool, t))
    case SwapResults => q.(saving := q.results, results := [])
    case SaveResult(e) =>
      q.(rows := Saved(c, q.rows, q.saving[0], e, q.now), saving := q.saving[1..],
         apart := q.apart + Left(c, q.saving[0], e, q.now), orphans := q.orphans + Left(c, q.saving[0], e, q.now))
    case ClearQueue => q.(rows := Deactivated(q.rows, Ids(q.pool.queue)), pool := Next(q.pool, MainClear))
  }

  ghost predicate QueueInv(c: Config, q: Queue) {
    && Owned(q.rows, Held(q), q.batch, q.apart)
    && Inv(q.pool) && q.orphans <= q.apart && |q.pool.queue| + |q.work| <= QUEUE_RUN_MAX
    && (q.work != [] ==> WorkReady(c, q))
  }

  predicate WorkReady(c: Config, q: Queue) {
    && q.batch == {} && q.pool.run && |q.pool.workers| >= q.pool.threadCount
    && DistinctIds(q.work) && Picked(c, q.rows, q.now, q.work)
  }

  lemma SignalHand(p: Pool<Item>, pick: nat)
    ensures InHand(Signal(p, pick).workers) == InHand(p.workers)
  {
    var u := Chosen(p.workers, pick);
    if u < |p.workers| {
      KeepHand(p.workers, u, Signal(p, pick).workers[u]);
    }
  }

  lemma PushHand(p: Pool<Item>, job: Item)
    ensures var r := Push(p, job);
      r.queue == p.queue + [job] && InHand(r.workers) == InHand(p.workers) && r.run == p.run
      && r.threadCount == p.threadCount && |r.workers| >= |p.workers|
  {
    var r := Push(p, job);
    if r.workers != p.workers {
      assert r.workers[..|p.workers|] == p.workers;
      assert InHand(r.workers) == InHand(p.workers) + multiset{};
    }
  }

  lemma AddHand(p: Pool<Item>, job: Item, pick: nat)
    ensures var r := Add(p, job, pick);
      r.queue == p.queue + [job] && InHand(r.workers) == InHand(p.workers) && r.run == p.run
      && r.threadCount == p.threadCount && |r.workers| >= |p.workers|
  {
    hide Push, Signal, InHand;
    PushHand(p, job);
    SignalHand(Push(p, job), pick);
  }

  lemma {:induction false} AddAllKeeps(p: Pool<Item>, items: seq<Item>, picks: seq<nat>)
    requires Inv(p) && p.run && |p.workers| >= p.threadCount
    ensures Inv(AddAll(p, items, picks))
    decreases |items|
  {
    hide Add, InHand, Inv;
    if items != [] {
      var pick := if picks == [] then 0 else picks[0];
      AddHand(p, items[0], pick);
      AddKeeps(p, items[0], pick);
      AddAllKeeps(Add(p, items[0], pick), items[1..], if picks == [] then [] else picks[1..]);
    }
  }

  lemma {:induction false} AddAllHand(p: Pool<Item>, items: seq<Item>, picks: seq<nat>, queued: seq<Item>, hand: multiset<Item>)
    requires p.queue == queued && InHand(p.workers) == hand
    ensures AddAll(p, items, picks).queue == queued + items && InHand(AddAll(p, items, picks).workers) == hand
    decreases |items|
  {
    hide Add, InHand;
    if items == [] {
      assert queued + items == queued;
    } else {
      var pick := if picks == [] then 0 else picks[0];
      AddHand(p, items[0], pick);
      AddAllHand(Add(p, items[0], pick), items[1..], if picks == [] then [] else picks[1..], queued + [items[0]], hand);
      assert queued + items == queued + [items[0]] + items[1..];
    }
  }

  lemma SpawnHand(p: Pool<Item>, isDynamic: bool)
    ensures InHand(Spawn(p, isDynamic).workers) == InHand(p.workers)
  {
    var r := Spawn(p, isDynamic);
    assert r.workers[..|p.workers|] == p.workers;
    assert InHand(r.workers) == InHand(p.workers) + multiset{};
  }

  lemma PopMoves(p: Pool<Item>, t: nat, wasWaiting: bool)
    requires t < |p.workers| && !p.workers[t].pc.Working?
    ensures var r := Pop(p, t, wasWaiting);
      multiset(r.queue) + InHand(r.workers) == multiset(p.queue) + InHand(p.workers) && |r.queue| <= |p.queue|
  {
    hide InHand;
    var r := Pop(p, t, wasWaiting);
    if p.queue == [] {
      KeepHand(p.workers, t, r.workers[t]);
    } else {
      SetWorking(p, t, r.workers[t]);
      var job := p.queue[0];
      assert p.queue == [job] + r.queue;
      assert multiset(p.queue) == multiset{job} + multiset(r.queue);
      MoveOne(multiset(r.queue), InHand(p.workers), job);
    }
  }

  lemma TakeMoves(p: Pool<Item>, t: nat, wasWaiting: bool, pick: nat)
    requires t < |p.workers| && !p.workers[t].pc.Working?
    ensures var r := Take(p, t, wasWaiting, pick);
      multiset(r.queue) + InHand(r.workers) == multiset(p.queue) + InHand(p.workers) && |r.queue| <= |p.queue|
  {
    hide InHand, Pop, Signal;
    PopMoves(p, t, wasWaiting);
    SignalHand(Pop(p, t, wasWaiting), pick);
  }

  // A worker's step other than finishing a job.
  lemma WorkerMoves(p: Pool<Item>, s: Step<Item>)
    requires ByWorker(s) && Enabled(p, s) && !s.WorkerFinish?
    ensures var r := Next(p, s);
      multiset(r.queue) + InHand(r.workers) == multiset(p.queue) + InHand(p.workers) && |r.queue| <= |p.queue|
  {
    hide InHand, Take;
    if s.WorkerWake? || s.WorkerSpurious? {
      TakeMoves(p, s.t, true, s.pick);
    } else if s.WorkerEnter? && p.run && p.workers[s.t].pc.skipWait {
      TakeMoves(p, s.t, false, s.pick);
    } else {
      KeepHand(p.workers, s.t, Next(p, s).workers[s.t]);
    }
  }

  // Steps of the pool move jobs at most from its queue into a worker's hands.
  lemma PoolMoves(p: Pool<Item>, s: Step<Item>)
    requires Enabled(p, s) && !s.MainAdd? && !s.WorkerFinish? && !s.MainClear?
    ensures var r := Next(p, s);
      multiset(r.queue) + InHand(r.workers) == multiset(p.queue) + InHand(p.workers) && |r.queue| <= |p.queue|
  {
    if ByWorker(s) {
      WorkerMoves(p, s);
    } else if s.MainSpawn? {
      SpawnHand(p, false);
    } else if s.MainStop? {
      BroadcastFacts(p.workers);
    }
  }

  lemma MoveOne(a: multiset<Item>, b: multiset<Item>, x: Item)
    ensures a + (b + multiset{x}) == multiset{x} + a + b
  {
  }

  lemma SelectKeeps(c: Config, q: Queue, items: seq<Item>)
    requires QueueInv(c, q) && Possible(c, q, SelectWork(items))
    ensures QueueInv(c, Do(c, q, SelectWork(items)))
  {
    hide Owned, Inv;
    forall i, j | 0 <= i < j < |items|
      ensures items[i].id != items[j].id
    {
      assert InOrder(q.rows, items) && Earlier(q.rows[items[i].id], q.rows[items[j].id]);
    }
  }

  lemma FillKeeps(c: Config, q: Queue, picks: seq<nat>)
    requires QueueInv(c, q) && Possible(c, q, FillPool(picks))
    ensures QueueInv(c, Do(c, q, FillPool(picks)))
    ensures Held(Do(c, q, FillPool(picks))) == Held(q) + multiset(q.work)
  {
    hide Inv, InHand;
    var r := Do(c, q, FillPool(picks));
    AddAllKeeps(q.pool, q.work, picks);
    AddAllHand(q.pool, q.work, picks, q.pool.queue, InHand(q.pool.workers));
    SelectOwned(c, q.rows, Held(q), q.apart, q.now, q.work);
    assert multiset(r.pool.queue) == multiset(q.pool.queue) + multiset(q.work);
    MoveItems(multiset(q.pool.queue), multiset(q.work), InHand(q.pool.workers),
      multiset(Items(q.results)), multiset(Items(q.saving)));
  }

  lemma MoveItems(a: multiset<Item>, x: multiset<Item>, b: multiset<Item>, c: multiset<Item>, d: multiset<Item>)
    ensures a + x + b + c + d == a + b + c + d + x
  {
  }

  lemma FinishHand(p: Pool<Item>, t: nat)
    requires t < |p.workers| && p.workers[t].pc.Working?
    ensures InHand(p.workers) == InHand(Finish(p, t).workers) + multiset{p.workers[t].pc.job}
  {
    SetHand(p.workers, t, Finish(p, t).workers[t]);
    assert InHand(p.workers) + multiset{} == InHand(p.workers);
  }

  lemma WorkDoneHeld(c: Config, q: Queue, t: nat, status: Status)
    requires Possible(c, q, WorkDone(t, status))
    ensures Held(Do(c, q, WorkDone(t, status))) == Held(q)
  {
    hide InHand;
    var r := Do(c, q, WorkDone(t, status));
    var job := q.pool.workers[t].pc.job;
    FinishHand(q.pool, t);
    assert Items(r.results) == Items(q.results) + [job];
    var a, b, d, e := multiset(q.pool.queue), InHand(r.pool.workers), multiset(Items(q.results)), multiset(Items(q.saving));
    assert Held(q) == a + (b + multiset{job}) + d + e;
    assert Held(r) == a + b + (d + multiset{job}) + e;
    HandOver(a, b, job, d, e);
  }

  lemma WorkDoneKeeps(c: Config, q: Queue, t: nat, status: Status)
    requires QueueInv(c, q) && Possible(c, q, WorkDone(t, status))
    ensures QueueInv(c, Do(c, q, WorkDone(t, status)))
  {
    FinishKeeps(q.pool, t);
    WorkDoneHeld(c, q, t, status);
  }

  lemma HandOver(a: multiset<Item>, b: multiset<Item>, x: Item, c: multiset<Item>, d: multiset<Item>)
    ensures a + (b + multiset{x}) + c + d == a + b + (c + multiset{x}) + d
  {
  }

  lemma SwapKeeps(c: Config, q: Queue)
    requires QueueInv(c, q) && Possible(c, q, SwapResults)
    ensures QueueInv(c, Do(c, q, SwapResults)) && Held(Do(c, q, SwapResults)) == Held(q)
  {
    hide Inv, InHand, Owned;
    assert Items(q.saving) == [];
    assert Held(Do(c, q, SwapResults)) == Held(q);
  }

  // One result less is held.
  lemma SaveHeld(q: Queue, r: Queue)
    requires q.saving != [] && r.saving == q.saving[1..] && r.pool == q.pool && r.results == q.results
    ensures q.saving[0].item in Held(q) && Held(r) == Held(q) - multiset{q.saving[0].item}
  {
    hide InHand;
    var a := q.saving[0].item;
    assert Items(q.saving) == [a] + Items(r.saving);
    var others := multiset(q.pool.queue) + InHand(q.pool.workers) + multiset(Items(q.results));
    assert Held(q) == others + (multiset{a} + multiset(Items(r.saving)));
    TakeOne(others, a, multiset(Items(r.saving)));
  }

  lemma SaveKeeps(c: Config, q: Queue, e: Enqueue)
    requires QueueInv(c, q) && Possible(c, q, SaveResult(e))
    ensures QueueInv(c, Do(c, q, SaveResult(e)))
  {
    hide Inv, InHand, Owned, Saved, Held;
    SaveHeld(q, Do(c, q, SaveResult(e)));
    SaveOwned(c, q.rows, Held(q), q.apart, q.now, q.saving[0], e);
  }

  lemma TakeOne(others: multiset<Item>, x: Item, rest: multiset<Item>)
    ensures x in others + (multiset{x} + rest)
    ensures others + (multiset{x} + rest) - multiset{x} == others + rest
  {
  }

  // After stop and ProcessResults only the pool queue still holds anything.
  lemma ClearKeeps(c: Config, q: Queue)
    requires QueueInv(c, q) && Possible(c, q, ClearQueue)
    ensures var r := Do(c, q, ClearQueue);
      && QueueInv(c, r) && Held(r) == multiset{}
      && forall id :: id in r.rows ==> (r.rows[id].active <==> id in r.apart)
  {
    var r := Do(c, q, ClearQueue);
    StoppedPool(q.pool);
    StepKeeps(q.pool, MainClear);
    assert Items(q.results) == [] && Items(q.saving) == [];
    assert Held(q) == multiset(q.pool.queue);
    ClearOwned(q.rows, q.pool.queue, q.apart);
    assert r.pool.workers == q.pool.workers;
    assert Held(r) == multiset{};
  }

  // A row kept active by another process is held by nobody here.
  lemma ApartOwned(rows: Rows, held: multiset<Item>, apart: set<int>, id: int)
    requires Owned(rows, held, {}, apart) && id in apart
    ensures id in rows && Owned(rows[id := rows[id].(active := false)], held, {}, apart - {id})
    ensures Owned(rows - {id}, held, {}, apart - {id})
  {
  }

  lemma DeletedOwned(rows: Rows, held: multiset<Item>, apart: set<int>, ids: set<int>)
    requires Owned(rows, held, {}, apart)
    requires forall id :: id in ids && id in rows ==> !rows[id].active
    ensures Owned(rows - ids, held, {}, apart)
  {
  }

  lemma RowsOnly(c: Config, q: Queue, rows: Rows, apart: set<int>)
    requires QueueInv(c, q) && q.orphans <= apart && q.work == [] && Owned(rows, Held(q), q.batch, apart)
    ensures QueueInv(c, q.(rows := rows, apart := apart))
  {
  }

  lemma RowKeeps(c: Config, q: Queue, x: Action)
    requires QueueInv(c, q) && Possible(c, q, x)
    requires x.ForeignRelease? || x.ForeignDelete? || x.MarkDeleted? || x.ControlDelete? || x.Flush?
    ensures QueueInv(c, Do(c, q, x))
  {
    hide Owned, Held, Inv;
    var held := Held(q);
    match x {
      case ForeignRelease(id) =>
        ApartOwned(q.rows, held, q.apart, id);
        RowsOnly(c, q, q.rows[id := q.rows[id].(active := false)], q.apart - {id});
      case ForeignDelete(id) =>
        ApartOwned(q.rows, held, q.apart, id);
        RowsOnly(c, q, q.rows - {id}, q.apart - {id});
      case MarkDeleted(id) =>
        MarkedOwned(q.rows, held, q.apart, id);
        RowsOnly(c, q, q.rows[id := q.rows[id].(deleted := true)], q.apart);
      case ControlDelete(ids) =>
        DeletedOwned(q.rows, held, q.apart, ids);
        RowsOnly(c, q, q.rows - ids, q.apart);
      case Flush =>
        FlushedOwned(q.rows, held, q.apart);
        RowsOnly(c, q, Flushed(q.rows), q.apart);
    }
  }

  lemma ForeignKeeps(c: Config, q: Queue, x: Action)
    requires QueueInv(c, q) && Possible(c, q, x)
    requires x.Tick? || x.ForeignInsert? || x.ForeignRelease? || x.ForeignDelete? || x.MarkDeleted? || x.ControlDelete? || x.Flush?
    ensures QueueInv(c, Do(c, q, x))
  {
    hide Owned, Held, Inv;
    if x.Tick? {
      TimePasses(c, q, x.d);
    } else if x.ForeignInsert? {
      var row := Row(Item(x.id, q.now, x.from, x.to, 0), 0, true, false);
      InsertOwned(q.rows, Held(q), q.apart, row);
      RowsOnly(c, q, q.rows[x.id := row], q.apart + {x.id});
    } else {
      RowKeeps(c, q, x);
    }
  }

  // What was due stays due.
  lemma TimePasses(c: Config, q: Queue, d: nat)
    requires QueueInv(c, q)
    ensures QueueInv(c, q.(now := q.now + d))
  {
    hide Owned, Inv;
    assert Held(q.(now := q.now + d)) == Held(q);
  }

  lemma MarkedOwned(rows: Rows, held: multiset<Item>, apart: set<int>, id: int)
    requires Owned(rows, held, {}, apart) && id in rows
    ensures Owned(rows[id := rows[id].(deleted := true)], held, {}, apart)
  {
  }

  lemma FlushedOwned(rows: Rows, held: multiset<Item>, apart: set<int>)
    requires Owned(rows, held, {}, apart)
    ensures Owned(Flushed(rows), held, {}, apart)
  {
  }

  // Only the main thread creates threads and stops the pool.
  lemma WorkerKeepsPool(p: Pool<Item>, s: Step<Item>)
    requires Enabled(p, s) && ByWorker(s)
    ensures Next(p, s).run == p.run && |Next(p, s).workers| == |p.workers| && Next(p, s).threadCount == p.threadCount
  {
  }

  lemma PoolStepKeeps(c: Config, q: Queue, s: Step<Item>)
    requires QueueInv(c, q) && Possible(c, q, PoolStep(s))
    ensures QueueInv(c, Do(c, q, PoolStep(s))) && Held(Do(c, q, PoolStep(s))) == Held(q)
  {
    hide Owned, Inv, InHand, Enabled, Next, Items, Picked, DistinctIds;
    StepKeeps(q.pool, s);
    PoolMoves(q.pool, s);
    if q.work != [] {
      WorkerKeepsPool(q.pool, s);
    }
    var r := Do(c, q, PoolStep(s));
    assert Held(r) == Held(q);
  }

  /** Every action of the main thread, a worker or another process keeps the invariant. */
  lemma ActionKeeps(c: Config, q: Queue, x: Action)
    requires QueueInv(c, q) && Possible(c, q, x)
    ensures QueueInv(c, Do(c, q, x))
  {
    match x {
      case SelectWork(items) => SelectKeeps(c, q, items);
      case FillPool(picks) => FillKeeps(c, q, picks);
      case Activate =>
        hide Owned, Inv, InHand;
        ActivateOwned(q.rows, Held(q), q.batch, q.apart);
        assert Held(Do(c, q, x)) == Held(q);
      case PoolStep(s) => PoolStepKeeps(c, q, s);
      case WorkDone(t, status) => WorkDoneKeeps(c, q, t, status);
      case SwapResults => SwapKeeps(c, q);
      case SaveResult(e) => SaveKeeps(c, q, e);
      case ClearQueue => ClearKeeps(c, q);
      case _ => ForeignKeeps(c, q, x);
    }
  }

  predicate IsHistory(c: Config, q: Queue, xs: seq<Action>)
    decreases |xs|
  {
    xs == [] || (Possible(c, q, xs[0]) && IsHistory(c, Do(c, q, xs[0]), xs[1..]))
  }

  function Later(c: Config, q: Queue, xs: seq<Action>): Queue
    requires IsHistory(c, q, xs)
    decreases |xs|
  {
    if xs == [] then q else Later(c, Do(c, q, xs[0]), xs[1..])
  }

  lemma {:induction false} HistoryKeeps(c: Config, q: Queue, xs: seq<Action>)
    requires QueueInv(c, q) && IsHistory(c, q, xs)
    ensures QueueInv(c, Later(c, q, xs))
    decreases |xs|
  {
    if xs != [] {
      ActionKeeps(c, q, xs[0]);
      HistoryKeeps(c, Do(c, q, xs[0]), xs[1..]);
    }
  }

  // The state that Run starts its loop from, once all rows have been made inactive.
  predicate Initial(q: Queue, threadCount: nat, maxGrow: nat) {
    && q.pool == New(threadCount, maxGrow) && q.results == [] && q.saving == []
    && q.work == [] && q.batch == {} && q.apart == {} && q.orphans == {}
    && forall id :: id in q.rows ==> q.rows[id].item.id == id && !q.rows[id].active
  }

  lemma InitialInv(c: Config, q: Queue, threadCount: nat, maxGrow: nat)
    requires Initial(q, threadCount, maxGrow)
    ensures QueueInv(c, q)
  {
    NewInv<Item>(threadCount, maxGrow);
    assert Items(q.results) == [] && Items(q.saving) == [];
    assert Held(q) == multiset{};
  }
}
