/** The message queue object: table, pool, results and the methods that move items between
    them. Each method is shown to perform actions of the state machine in MsgQueue. */
module MessageQueue {
  import opened ThreadPool
  import opened JobPool
  import opened MsgQueue
  import opened MsgHistory

  // What the file system answers while a bounce is enqueued.
  datatype Disk = Fine | TempFileFails | QueueFileFails

  function Ending(disk: Disk, id: int): Enqueue {
    match disk
    case Fine => Released(id)
    case TempFileFails => NoTempFile(id)
    case QueueFileFails => NoQueueFile
  }

  lemma {:induction false} HistorySnoc(c: Config, q: Queue, xs: seq<Action>, x: Action)
    requires IsHistory(c, q, xs) && Possible(c, Later(c, q, xs), x)
    ensures IsHistory(c, q, xs + [x]) && Later(c, q, xs + [x]) == Do(c, Later(c, q, xs), x)
    decreases |xs|
  {
    hide Possible, Do;
    if xs == [] {
      assert xs + [x] == [x] && [x][1..] == [];
    } else {
      assert (xs + [x])[1..] == xs[1..] + [x];
      HistorySnoc(c, Do(c, q, xs[0]), xs[1..], x);
    }
  }

  lemma Swapped(c: Config, q: Queue)
    requires QueueInv(c, q) && Possible(c, q, SwapResults)
    ensures var r := q.(saving := q.results, results := []);
      QueueInv(c, r) && Do(c, q, SwapResults) == r && IsHistory(c, q, [SwapResults]) && Later(c, q, [SwapResults]) == r
  {
    hide QueueInv, Enabled, Selection, Saved, Next, AddAll;
    SwapKeeps(c, q);
    assert [SwapResults][1..] == [];
  }

  // As much of an answer as there is room for.
  function Taken(items: seq<Item>, limit: nat): seq<Item> {
    if |items| > limit then items[..limit] else items
  }

  // Dropping the last item of an answer that is one too long.
  lemma SelectionPrefix(c: Config, rows: Rows, now: int, limit: nat, items: seq<Item>)
    requires Selection(c, rows, now, limit + 1, items) && forall id :: id in rows ==> rows[id].item.id == id
    ensures Selection(c, rows, now, limit, Taken(items, limit))
  {
    if |items| > limit {
      var taken := items[..limit];
      assert items == taken + [items[limit]];
      assert forall a :: a in taken ==> a in items;
      forall id | id in rows && Eligible(c, rows[id], now) && rows[id].item !in taken
        ensures forall a :: a in taken ==> a.id in rows && Earlier(rows[a.id], rows[id])
      {
        forall a | a in taken
          ensures a.id in rows && Earlier(rows[a.id], rows[id])
        {
          var i :| 0 <= i < limit && taken[i] == a;
          assert items[i] == a;
        }
      }
    }
  }

  function Marked(rows: Rows): set<int> {
    set id | id in rows && rows[id].deleted && !rows[id].active
  }

  // Rows that are marked for deletion are never selected.
  lemma SelectionPurged(c: Config, rows: Rows, now: int, limit: nat, items: seq<Item>)
    requires Selection(c, rows, now, limit, items)
    ensures Selection(c, rows - Marked(rows), now, limit, items)
  {
  }

  // Some row is still waiting to be selected.
  ghost predicate MoreEntries(c: Config, rows: Rows, now: int) {
    exists id :: id in rows && Eligible(c, rows[id], now)
  }

  lemma MoreThanRead(c: Config, rows: Rows, now: int, limit: nat, items: seq<Item>)
    requires Selection(c, rows, now, limit + 1, items) && forall id :: id in rows ==> rows[id].item.id == id
    ensures var taken := Taken(items, limit);
      |items| > limit <==> MoreEntries(c, Activated(rows, Ids(taken)), now)
  {
    var taken := Taken(items, limit);
    var after := Activated(rows, Ids(taken));
    assert forall a :: a in taken ==> a in items;
    if |items| > limit {
      var last := items[limit];
      assert last in items && Eligible(c, rows[last.id], now);
      assert last.id !in Ids(taken) by {
        forall a | a in taken
          ensures a.id != last.id
        {
          var i :| 0 <= i < limit && items[i] == a;
          assert InOrder(rows, items) && Earlier(rows[items[i].id], rows[items[limit].id]);
        }
      }
      assert Eligible(c, after[last.id], now);
    } else {
      assert forall id :: id in after && after[id] == rows[id] ==> rows[id].item !in items;
    }
  }

  lemma RowsByIds(c: Config, q: Queue)
    requires QueueInv(c, q)
    ensures forall id :: id in q.rows ==> q.rows[id].item.id == id
  {
  }

  lemma ActivatedNone(rows: Rows, items: seq<Item>)
    requires items == []
    ensures Activated(rows, Ids(items)) == rows
  {
  }

  lemma DeactivatedNone(rows: Rows, items: seq<Item>)
    requires items == []
    ensures Deactivated(rows, Ids(items)) == rows
  {
  }

  lemma Cleared(c: Config, q: Queue)
    requires Possible(c, q, ClearQueue)
    ensures Do(c, q, ClearQueue) == q.(rows := Deactivated(q.rows, Ids(q.pool.queue)),
      pool := q.pool.(queue := [], dropped := q.pool.queue + q.pool.dropped))
    ensures q.pool.threads == [] && (q.pool.queue == [] ==> Do(c, q, ClearQueue).pool == q.pool)
  {
  }

  // What only the main thread changes of a pool.
  predicate ByPoolWorker(p: Pool<Item>, q: Pool<Item>) {
    q.run == p.run && |q.workers| == |p.workers| && q.threads == p.threads && q.added == p.added && q.dropped == p.dropped
  }

  lemma FinishIsStep(p: Pool<Item>, t: nat)
    requires t < |p.workers| && p.workers[t].pc.Working?
    ensures Enabled(p, WorkerFinish(t)) && Next(p, WorkerFinish(t)) == Finish(p, t)
  {
  }

  lemma AllRoused(c: Config, q: Queue, t: nat)
    requires QueueInv(c, q) && !q.pool.run && t < |q.pool.workers|
    ensures !Sleeps(q.pool.workers, t)
  {
  }

  lemma NotFinish(p: Pool<Item>, s: Step<Item>)
    requires ByWorker(s) && Enabled(p, s) && s.t < |p.workers| && !p.workers[s.t].pc.Working?
    ensures !s.MainAdd? && !s.WorkerFinish? && !s.MainClear?
  {
  }

  lemma NoHistory(c: Config, q: Queue)
    ensures IsHistory(c, q, []) && Later(c, q, []) == q
  {
  }

  lemma WorkersExist(c: Config, q: Queue)
    requires QueueInv(c, q) && |q.pool.workers| >= q.pool.threadCount
    ensures |q.pool.workers| > 0
  {
  }

  lemma ThreadsExist(c: Config, q: Queue)
    requires QueueInv(c, q)
    ensures forall i :: 0 <= i < |q.pool.threads| ==> q.pool.threads[i] < |q.pool.workers|
  {
    forall i | 0 <= i < |q.pool.threads|
      ensures q.pool.threads[i] < |q.pool.workers|
    {
      assert q.pool.threads[i] in q.pool.threads;
    }
  }

  // What the locked section does once the items are known.
  ghost function Handed(c: Config, q: Queue, items: seq<Item>, picks: seq<nat>): Queue
    requires Possible(c, q, SelectWork(items))
  {
    var r := Do(c, q, SelectWork(items));
    if items == [] then r else Do(c, Do(c, r, FillPool(picks)), Activate)
  }

  // Marked rows are deleted, then the items are handed over; r is the result.
  ghost predicate Processed(c: Config, q: Queue, items: seq<Item>, picks: seq<nat>, r: Queue) {
    && Possible(c, q, ControlDelete(Marked(q.rows)))
    && Possible(c, Do(c, q, ControlDelete(Marked(q.rows))), SelectWork(items))
    && r == Handed(c, Do(c, q, ControlDelete(Marked(q.rows))), items, picks)
  }

  lemma HandedHistory(c: Config, q: Queue, ids: set<int>, items: seq<Item>, picks: seq<nat>)
    returns (xs: seq<Action>)
    requires Possible(c, q, ControlDelete(ids))
    requires Possible(c, Do(c, q, ControlDelete(ids)), SelectWork(items))
    ensures IsHistory(c, q, xs)
    ensures Later(c, q, xs) == Handed(c, Do(c, q, ControlDelete(ids)), items, picks)
  {
    hide Selection, Enabled, AddAll, Activated, Ids, Next, Saved;
    xs := [];
    HistorySnoc(c, q, xs, ControlDelete(ids));
    xs := xs + [ControlDelete(ids)];
    HistorySnoc(c, q, xs, SelectWork(items));
    xs := xs + [SelectWork(items)];
    if items != [] {
      HistorySnoc(c, q, xs, FillPool(picks));
      xs := xs + [FillPool(picks)];
      HistorySnoc(c, q, xs, Activate);
      xs := xs + [Activate];
    }
  }

  // ProcessResult enqueues a bounce, and an id is used up.
  predicate Enqueues(c: Config, r: Result, now: int) {
    r.status != Success && Terminal(c, r, now) && Bounces(r.item)
  }

  // All results taken are saved one after the other, with what the disk answers from the i-th on.
  ghost function AllSaved(c: Config, q: Queue, disk: nat -> Disk, i: nat, nextId: int): Queue
    decreases |q.saving|
  {
    if q.saving == [] || !Possible(c, q, SaveResult(Ending(disk(i), nextId))) then q
    else
      AllSaved(c, Do(c, q, SaveResult(Ending(disk(i), nextId))), disk, i + 1,
        nextId + if Enqueues(c, q.saving[0], q.now) then 1 else 0)
  }

  predicate SavesOnly(xs: seq<Action>) {
    |xs| > 0 && xs[0] == SwapResults && forall i :: 1 <= i < |xs| ==> xs[i].SaveResult?
  }

  lemma SavesShape(xs: seq<Action>)
    requires [SwapResults] <= xs && forall i :: 1 <= i < |xs| ==> xs[i].SaveResult?
    ensures SavesOnly(xs)
  {
  }

  // What happens while the pool is being stopped: threads move on and are joined.
  predicate Stops(x: Action) {
    x.WorkDone? || (x.PoolStep? && ((ByWorker(x.s) && !x.s.WorkerSpurious?) || x.s.MainJoin?))
  }

  predicate AddsStops(done: seq<Action>, xs: seq<Action>) {
    done <= xs && forall i :: |done| <= i < |xs| ==> Stops(xs[i])
  }

  predicate StopsOnly(xs: seq<Action>) {
    |xs| > 0 && xs[0] == PoolStep(MainStop) && forall i :: 1 <= i < |xs| ==> Stops(xs[i])
  }

  lemma {:induction false} HistorySum(c: Config, q: Queue, a: seq<Action>, b: seq<Action>)
    requires IsHistory(c, q, a) && IsHistory(c, Later(c, q, a), b)
    ensures IsHistory(c, q, a + b) && Later(c, q, a + b) == Later(c, Later(c, q, a), b)
    decreases |a|
  {
    hide Possible, Do;
    if a == [] {
      assert a + b == b;
    } else {
      assert (a + b)[1..] == a[1..] + b;
      HistorySum(c, Do(c, q, a[0]), a[1..], b);
    }
  }

  lemma AddAllStep(p: Pool<Item>, items: seq<Item>, picks: seq<nat>)
    ensures items == [] ==> AddAll(p, items, picks) == p
    ensures var pick, more := if picks == [] then 0 else picks[0], if picks == [] then [] else picks[1..];
      items != [] ==> AddAll(p, items, picks) == AddAll(Add(p, items[0], pick), items[1..], more)
  {
  }

  class MSGQueue {
    const config: Config
    const threadPool: JobPool<Item>
    var rows: Rows
    var nextId: int
    var results: seq<Result>
    var resultsWaiting: bool
    var moreQueueEntries: bool
    var now: int
    var saving: seq<Result>    // the local queue of ProcessResults
    ghost var work: seq<Item>
    var batch: set<int>        // the ids of the UPDATE that marks rows active
    ghost var apart: set<int>
    ghost var orphans: set<int>

    ghost function State(): Queue
      reads this, threadPool
    {
      Queue(rows, threadPool.State(), results, saving, work, batch, apart, orphans, now)
    }

    predicate IdsBelow()
      reads this
    {
      nextId > 0 && forall id :: id in rows ==> id < nextId
    }

    // A waiting result is always flagged, so the main loop cannot sleep over it.
    ghost predicate Valid()
      reads this, threadPool
    {
      QueueInv(config, State()) && IdsBelow() && (resultsWaiting <==> results != [])
    }

    /** The state in which the main loop starts: no row is active. */
    constructor (config: Config, threadCount: nat, maxGrow: nat, rows: Rows, nextId: int, now: int)
      requires nextId > 0 && forall id :: id in rows ==> id < nextId && rows[id].item.id == id && !rows[id].active
      ensures Initial(State(), threadCount, maxGrow) && fresh(threadPool)
      ensures Valid() && this.config == config && this.rows == rows && this.now == now && this.nextId == nextId
    {
      this.config, this.rows, this.nextId, this.now := config, rows, nextId, now;
      threadPool := new JobPool(threadCount, maxGrow);
      results, resultsWaiting, moreQueueEntries, saving := [], false, false, [];
      work, batch, apart, orphans := [], {}, {}, {};
      new;
      InitialInv(config, State(), threadCount, maxGrow);
    }

    method EnqueueMessage(from: string, to: string, disk: Disk) returns (id: int)
      requires IdsBelow()
      modifies this`rows, this`nextId
      ensures IdsBelow() && nextId == old(nextId) + 1
      ensures var row := Row(Item(old(nextId), now, from, to, 0), 0, disk.TempFileFails?, false);
        rows == if disk.QueueFileFails? then old(rows) else old(rows)[old(nextId) := row]
      ensures id == if disk.Fine? then old(nextId) else 0
    {
      id := nextId;
      nextId := nextId + 1;
      var row := Row(Item(id, now, from, to, 0), 0, true, false);
      rows := rows[id := row];
      if disk == TempFileFails {
        return 0;
      }
      if disk == QueueFileFails {
        rows := rows - {id};
        return 0;
      }
      rows := rows[id := row.(active := false)];
    }

    method BounceMessage(a: Item, disk: Disk) returns (bounced: bool)
      requires IdsBelow()
      modifies this`rows, this`nextId
      ensures IdsBelow() && rows == Bounce(old(rows), a, Ending(disk, old(nextId)), now)
      ensures bounced <==> Bounces(a) && disk.Fine?
      ensures nextId == old(nextId) + if Bounces(a) then 1 else 0
    {
      if |a.from| < 5 {
        return false;
      }
      if SameAddress(a.from, a.to) {
        return false;
      }
      var id := EnqueueMessage("", a.from, disk);
      bounced := id > 0;
    }

    method ProcessResult(r: Result, disk: Disk)
      requires IdsBelow() && r.item.id in rows
      modifies this`rows, this`nextId
      ensures IdsBelow() && rows == Saved(config, old(rows), r, Ending(disk, old(nextId)), now)
      ensures nextId == old(nextId) + if Enqueues(config, r, now) then 1 else 0
    {
      var item := r.item;
      if r.status == Success {
        rows := rows - {item.id};
      } else if r.status == FatalError {
        if |item.from| > 3 {
          var bounced := BounceMessage(item, disk);
        }
        rows := rows - {item.id};
      } else {
        item := item.(attempts := item.attempts + 1);
        if item.date + config.lifetime < now {
          if |item.from| > 3 {
            var bounced := BounceMessage(item, disk);
          }
          rows := rows - {item.id};
        } else {
          rows := rows[item.id := Row(item, now, false, rows[item.id].deleted)];
        }
      }
    }

    // One round of the loop over the results that have been taken.
    method SaveNext(disk: Disk)
      requires Valid() && !Locked(State()) && saving != []
      modifies this`rows, this`nextId, this`saving, this`apart, this`orphans
      ensures saving == old(saving)[1..]
      ensures Possible(config, old(State()), SaveResult(Ending(disk, old(nextId))))
      ensures State() == Do(config, old(State()), SaveResult(Ending(disk, old(nextId)))) && Valid()
      ensures nextId == old(nextId) + if Enqueues(config, old(saving)[0], now) then 1 else 0
    {
      hide QueueInv, Saved, Enabled, Selection;
      NextResult(config, State());
      ghost var e := Ending(disk, nextId);
      SaveKeeps(config, State(), e);
      var r := saving[0];
      ProcessResult(r, disk);
      ghost var lost := Left(config, r, e, now);
      saving, apart, orphans := saving[1..], apart + lost, orphans + lost;
    }

    // The rest of that loop; q and done are the state and the actions it started with.
    method SaveRest(disk: nat -> Disk, ghost q: Queue, ghost done: seq<Action>) returns (ghost xs: seq<Action>)
      requires Valid() && !Locked(State()) && results == []
      requires IsHistory(config, q, done) && State() == Later(config, q, done)
      modifies this`rows, this`nextId, this`saving, this`apart, this`orphans
      ensures Valid() && saving == []
      ensures IsHistory(config, q, xs) && State() == Later(config, q, xs)
      ensures State() == AllSaved(config, old(State()), disk, 0, old(nextId))
      ensures done <= xs && |xs| == |done| + |old(saving)|
      ensures forall i :: |done| <= i < |xs| ==> xs[i].SaveResult?
    {
      hide QueueInv, Saved, Enabled, Selection, Do, Later, IsHistory, Possible, IdsBelow;
      xs := done;
      var i := 0;
      while |saving| > 0
        invariant Valid() && work == [] && batch == {} && results == []
        invariant IsHistory(config, q, xs) && State() == Later(config, q, xs)
        invariant AllSaved(config, State(), disk, i, nextId) == AllSaved(config, old(State()), disk, 0, old(nextId))
        invariant done <= xs && |xs| + |saving| == |done| + |old(saving)|
        invariant forall k :: |done| <= k < |xs| ==> xs[k].SaveResult?
        decreases |saving|
      {
        ghost var x := SaveResult(Ending(disk(i), nextId));
        SaveNext(disk(i));
        HistorySnoc(config, q, xs, x);
        xs := xs + [x];
        i := i + 1;
      }
    }

    /** Saves all results that were waiting, in their order and nothing else; xs are the actions
        this amounts to. */
    method ProcessResults(disk: nat -> Disk) returns (ghost xs: seq<Action>)
      requires Valid() && !Locked(State()) && saving == []
      modifies this`rows, this`nextId, this`results, this`resultsWaiting, this`saving, this`apart, this`orphans
      ensures Valid() && results == [] && saving == [] && !resultsWaiting
      ensures State() == AllSaved(config, old(State()).(saving := old(results), results := []), disk, 0, old(nextId))
      ensures IsHistory(config, old(State()), xs) && State() == Later(config, old(State()), xs)
      ensures |xs| == 1 + |old(results)| && SavesOnly(xs)
    {
      hide QueueInv, Saved, Enabled, Selection, Do, Later, IsHistory, AllSaved, SavesOnly;
      ghost var q := State();
      Swapped(config, q);
      saving, results, resultsWaiting := results, [], false;
      xs := SaveRest(disk, q, [SwapResults]);
      SavesShape(xs);
    }

    /** A worker finishes the job it holds: its result is stored and the main loop is told. */
    method WorkProcessor(t: nat, status: Status)
      requires Valid() && t < |threadPool.workers| && threadPool.workers[t].pc.Working?
      modifies this`results, this`resultsWaiting, threadPool
      ensures State() == Do(config, old(State()), WorkDone(t, status))
      ensures Valid() && resultsWaiting
    {
      hide QueueInv, Enabled, Selection;
      WorkDoneKeeps(config, State(), t, status);
      var item := threadPool.workers[t].pc.job;
      threadPool.JobDone(t);
      results := results + [Result(item, status)];
      resultsWaiting := true;
    }

    // marked: the answer of SELECT id ... WHERE deleted = 1 AND active = 0.
    method DeleteMarked(marked: seq<int>)
      requires Valid() && !Locked(State()) && forall id :: id in marked <==> id in Marked(rows)
      modifies this`rows
      ensures Possible(config, old(State()), ControlDelete(Marked(old(rows))))
      ensures State() == Do(config, old(State()), ControlDelete(Marked(old(rows)))) && Valid()
    {
      hide QueueInv, Enabled, Selection;
      ghost var all := Marked(rows);
      RowKeeps(config, State(), ControlDelete(all));
      ghost var gone := {};
      for i := 0 to |marked|
        invariant rows == old(rows) - gone && forall id :: id in gone <==> id in marked[..i]
      {
        rows := rows - {marked[i]};
        gone := gone + {marked[i]};
      }
      assert marked[..|marked|] == marked;
      assert forall id :: id in gone <==> id in all;
    }

    // The loop that hands the items to the pool.
    method FillThreadPool(items: seq<Item>, picks: seq<nat>)
      requires Valid() && work == items != []
      modifies this`work, this`batch, threadPool
      ensures State() == Do(config, old(State()), FillPool(picks)) && Valid()
    {
      hide QueueInv, Enabled, Selection, Add, AddAll, Ids, Held;
      FillKeeps(config, State(), picks);
      ghost var before := threadPool.State();
      var queue, more := items, picks;
      while |queue| > 0
        invariant AddAll(threadPool.State(), queue, more) == AddAll(before, items, picks)
        decreases |queue|
      {
        AddAllStep(threadPool.State(), queue, more);
        threadPool.AddToQueue(queue[0], if |more| > 0 then more[0] else 0);
        queue, more := queue[1..], if |more| > 0 then more[1..] else [];
      }
      AddAllStep(threadPool.State(), queue, more);
      work, batch := [], Ids(items);
    }

    // UPDATE ... SET active = 1
    method MarkActive()
      requires Valid() && work == []
      modifies this`rows, this`batch
      ensures State() == Do(config, old(State()), Activate) && Valid()
    {
      hide QueueInv, Enabled, Selection;
      ActionKeeps(config, State(), Activate);
      rows := map id | id in rows :: if id in batch then rows[id].(active := true) else rows[id];
      batch := {};
    }

    // The loop over the rows read; answer is one longer than what will be taken if there are more.
    method TakeWork(answer: seq<Item>) returns (items: seq<Item>)
      modifies this`moreQueueEntries
      ensures var n := ItemsToRead(|threadPool.queue|);
        items == Taken(answer, n) && (moreQueueEntries <==> |answer| > n)
    {
      var itemsToRead, queueSize := QUEUE_RUN_MAX, |threadPool.queue|;
      if queueSize >= itemsToRead {
        itemsToRead := 0;
      } else {
        itemsToRead := itemsToRead - queueSize;
      }
      moreQueueEntries := |answer| > itemsToRead;
      items := [];
      var i := 0;
      while i < |answer| && i != itemsToRead
        invariant i <= |answer| && i <= itemsToRead && items == answer[..i]
      {
        items := items + [answer[i]];
        i := i + 1;
      }
    }

    // The rest of the locked section.
    method HandOver(items: seq<Item>, picks: seq<nat>)
      requires Valid() && Possible(config, State(), SelectWork(items))
      modifies this`rows, this`work, this`batch, threadPool
      ensures Valid() && State() == Handed(config, old(State()), items, picks)
      ensures rows == Activated(old(rows), Ids(items))
    {
      hide QueueInv, Enabled, Selection, Activated, AddAll, Ids;
      SelectKeeps(config, State(), items);
      work := items;
      if |items| > 0 {
        FillThreadPool(items, picks);
        MarkActive();
      } else {
        ActivatedNone(rows, items);
      }
    }

    /** Deletes what is marked, then fills the pool up with what is due, in order; afterwards
        moreQueueEntries says whether there is still something to select. */
    method ProcessQueue(marked: seq<int>, answer: seq<Item>, picks: seq<nat>) returns (ghost xs: seq<Action>)
      requires Valid() && !Locked(State()) && threadPool.run && |threadPool.workers| >= threadPool.threadCount
      requires forall id :: id in marked <==> id in Marked(rows)
      requires Selection(config, rows, now, ItemsToRead(|threadPool.queue|) + 1, answer)
      modifies this`rows, this`work, this`batch, this`moreQueueEntries, threadPool
      ensures Valid() && !Locked(State())
      ensures Processed(config, old(State()), Taken(answer, ItemsToRead(|old(threadPool.queue)|)), picks, State())
      ensures IsHistory(config, old(State()), xs) && State() == Later(config, old(State()), xs)
      ensures moreQueueEntries <==> MoreEntries(config, rows, now)
    {
      hide QueueInv, Enabled, Selection, MoreEntries, ItemsToRead, Activated, AddAll, Ids, Marked, IsHistory, Later, Taken;
      ghost var q, ids, n := State(), Marked(rows), ItemsToRead(|threadPool.queue|);
      SelectionPurged(config, rows, now, n + 1, answer);
      DeleteMarked(marked);
      RowsByIds(config, State());
      SelectionPrefix(config, rows, now, n, answer);
      MoreThanRead(config, rows, now, n, answer);
      var items := TakeWork(answer);
      HandOver(items, picks);
      xs := HandedHistory(config, q, ids, items, picks);
    }

    method QueuedIds() returns (ids: set<int>)
      ensures ids == Ids(threadPool.queue)
    {
      ids := {};
      for i := 0 to |threadPool.queue|
        invariant ids == Ids(threadPool.queue[..i])
      {
        ids := ids + {threadPool.queue[i].id};
      }
      assert threadPool.queue[..|threadPool.queue|] == threadPool.queue;
    }

    // What the pool has not begun goes back to the table.
    method ClearQueue()
      requires Valid() && Possible(config, State(), Action.ClearQueue)
      modifies this`rows, threadPool
      ensures State() == Do(config, old(State()), Action.ClearQueue) && Valid()
    {
      hide QueueInv, Enabled, Selection, Ids, Next, Do, Possible, Held;
      ClearKeeps(config, State());
      Cleared(config, State());
      if |threadPool.queue| == 0 {
        DeactivatedNone(rows, threadPool.queue);
        return;
      }
      var ids := QueuedIds();
      threadPool.Clear();
      rows := map id | id in rows :: if id in ids then rows[id].(active := false) else rows[id];
    }

    // Some worker gets to run while the pool is being stopped.
    method RunWorker(t: nat, status: Status, ghost q: Queue, ghost done: seq<Action>) returns (ghost xs: seq<Action>)
      requires Valid() && !threadPool.run && t < |threadPool.workers| && !threadPool.workers[t].pc.Exited?
      requires IsHistory(config, q, done) && State() == Later(config, q, done)
      modifies this`results, this`resultsWaiting, threadPool
      ensures Valid() && IsHistory(config, q, xs) && State() == Later(config, q, xs) && AddsStops(done, xs)
      ensures ByPoolWorker(old(threadPool.State()), threadPool.State())
      ensures TotalRank(threadPool.workers) < TotalRank(old(threadPool.workers))
    {
      hide QueueInv, Selection, Enabled, Next, IsHistory, Later, TotalRank;
      ghost var p := threadPool.State();
      if threadPool.workers[t].pc.Working? {
        xs := done + [WorkDone(t, status)];
        HistorySnoc(config, q, done, WorkDone(t, status));
        FinishIsStep(p, t);
        StopProgress(p, WorkerFinish(t));
        WorkerFrame(p, WorkerFinish(t));
        WorkProcessor(t, status);
      } else {
        ghost var before := State();
        AllRoused(config, before, t);
        threadPool.Schedule(t, 0);
        ghost var s :| Owed(p, t, s) && threadPool.State() == Next(p, s);
        NotFinish(p, s);
        PoolStepKeeps(config, before, s);
        HistorySnoc(config, q, done, PoolStep(s));
        StopProgress(p, s);
        WorkerFrame(p, s);
        xs := done + [PoolStep(s)];
      }
    }

    // Joins one thread; meanwhile all of them run as the scheduler pleases.
    method JoinThread(thread: nat, schedule: nat -> nat, status: nat -> Status, ghost q: Queue, ghost done: seq<Action>)
      returns (ghost xs: seq<Action>)
      requires Valid() && !threadPool.run && thread < |threadPool.workers|
      requires IsHistory(config, q, done) && State() == Later(config, q, done)
      modifies this`results, this`resultsWaiting, threadPool
      ensures Valid() && IsHistory(config, q, xs) && State() == Later(config, q, xs) && AddsStops(done, xs)
      ensures ByPoolWorker(old(threadPool.State()), threadPool.State())
      ensures thread < |threadPool.workers| && threadPool.workers[thread].pc.Exited?
    {
      hide QueueInv, IsHistory, Later, TotalRank;
      xs := done;
      var round := 0;
      while !threadPool.workers[thread].pc.Exited?
        invariant Valid() && IsHistory(config, q, xs) && State() == Later(config, q, xs) && AddsStops(done, xs)
        invariant ByPoolWorker(old(threadPool.State()), threadPool.State())
        decreases TotalRank(threadPool.workers)
      {
        var t := schedule(round);
        if t >= |threadPool.workers| || threadPool.workers[t].pc.Exited? {
          t := thread;
        }
        xs := RunWorker(t, status(round), q, xs);
        round := round + 1;
      }
    }

    method ClearRunFlag() returns (ghost xs: seq<Action>)
      requires Valid() && !Locked(State()) && threadPool.run && |threadPool.workers| >= threadPool.threadCount
      modifies threadPool
      ensures Valid() && IsHistory(config, old(State()), xs) && State() == Later(config, old(State()), xs)
      ensures !threadPool.run && |threadPool.workers| > 0 && xs == [PoolStep(MainStop)]
    {
      hide QueueInv, IsHistory, Later, Selection, Held, AddAll, Activated, Deactivated, Flushed, Saved, Marked;
      ghost var q := State();
      NoHistory(config, q);
      PoolStepKeeps(config, q, MainStop);
      HistorySnoc(config, q, [], PoolStep(MainStop));
      WorkersExist(config, q);
      threadPool.ClearRun();
      xs := [] + [PoolStep(MainStop)];
    }

    // One round of ThreadPool::stop.
    method JoinLastThread(schedule: nat -> nat, status: nat -> Status, ghost q: Queue, ghost done: seq<Action>)
      returns (ghost xs: seq<Action>)
      requires Valid() && !Locked(State()) && !threadPool.run && threadPool.threads != []
      requires IsHistory(config, q, done) && State() == Later(config, q, done)
      modifies this`results, this`resultsWaiting, threadPool
      ensures Valid() && IsHistory(config, q, xs) && State() == Later(config, q, xs) && AddsStops(done, xs)
      ensures !threadPool.run && |threadPool.workers| == |old(threadPool.workers)|
      ensures |threadPool.threads| == |old(threadPool.threads)| - 1
    {
      hide QueueInv, IsHistory, Later, Selection;
      ThreadsExist(config, State());
      var thread := threadPool.threads[|threadPool.threads| - 1];
      xs := JoinThread(thread, schedule, status, q, done);
      PoolStepKeeps(config, State(), MainJoin);
      HistorySnoc(config, q, xs, PoolStep(MainJoin));
      threadPool.ForgetLast();
      xs := xs + [PoolStep(MainJoin)];
    }

    // ThreadPool::stop.
    method StopPool(schedule: nat -> nat, status: nat -> Status) returns (ghost xs: seq<Action>)
      requires Valid() && !Locked(State()) && threadPool.run && |threadPool.workers| >= threadPool.threadCount
      modifies this`results, this`resultsWaiting, threadPool
      ensures Valid() && IsHistory(config, old(State()), xs) && State() == Later(config, old(State()), xs)
      ensures Enabled(threadPool.State(), MainClear) && StopsOnly(xs)
    {
      hide QueueInv, IsHistory, Later, Selection;
      ghost var q := State();
      xs := ClearRunFlag();
      while |threadPool.threads| > 0
        invariant Valid() && IsHistory(config, q, xs) && State() == Later(config, q, xs)
        invariant !threadPool.run && |threadPool.workers| > 0 && StopsOnly(xs)
        decreases |threadPool.threads|
      {
        xs := JoinLastThread(schedule, status, q, xs);
      }
    }

    /** The end of Run: stop the pool, save what is waiting, clear the queue, and nothing else.
        Whatever the scheduling it comes to an end; then this process holds nothing, and no row
        is active but those of other processes and of failed enqueues. */
    method Shutdown(schedule: nat -> nat, status: nat -> Status, disk: nat -> Disk)
      returns (ghost stop: seq<Action>, ghost saves: seq<Action>)
      requires Valid() && !Locked(State()) && threadPool.run && |threadPool.workers| >= threadPool.threadCount
      requires saving == []
      modifies this`rows, this`nextId, this`results, this`resultsWaiting, this`saving, this`apart, this`orphans, threadPool
      ensures Valid() && Held(State()) == multiset{} && results == [] && threadPool.threads == []
      ensures forall id :: id in rows ==> (rows[id].active <==> id in apart)
      ensures StopsOnly(stop) && SavesOnly(saves) && IsHistory(config, old(State()), stop + saves + [Action.ClearQueue])
      ensures State() == Later(config, old(State()), stop + saves + [Action.ClearQueue])
    {
      hide QueueInv, IsHistory, Later, Selection, Enabled, Do, StopsOnly, SavesOnly, AllSaved;
      ghost var q := State();
      stop := StopPool(schedule, status);
      saves := ProcessResults(disk);
      HistorySum(config, q, stop, saves);
      ClearKeeps(config, State());
      Cleared(config, State());
      HistorySnoc(config, q, stop + saves, Action.ClearQueue);
      ClearQueue();
    }
  }
}
