/** What holds of the message queue over whole histories of its threads and of the other
    processes that use the table. */
module MsgHistory {
  import opened ThreadPool
  import opened MsgQueue
  import opened Sets

  // ----- single ownership and capacity -----

  /** At every moment of every history: no id is held in two of pool queue, workers and
      results, nor twice in one; what is held is a row of the table, active unless
      ProcessQueue is just about to mark it; every active row is held here or belongs to
      another process or a failed enqueue; and the pool keeps its bounds. */
  lemma SingleOwnership(c: Config, q: Queue, xs: seq<Action>, threadCount: nat, maxGrow: nat)
    requires Initial(q, threadCount, maxGrow) && IsHistory(c, q, xs)
    ensures var r := Later(c, q, xs);
      && (forall a :: a in Held(r) ==>
            Held(r)[a] == 1 && a.id in r.rows && r.rows[a.id].item == a && (r.rows[a.id].active || a.id in r.batch))
      && (forall a, b :: a in Held(r) && b in Held(r) && a.id == b.id ==> a == b)
      && (forall id :: id in r.rows && r.rows[id].active ==> r.rows[id].item in Held(r) || id in r.apart)
      && |r.pool.queue| <= QUEUE_RUN_MAX && r.pool.createdThreads <= r.pool.maxGrow
  {
    hide Held, Inv, Later, Initial;
    InitialInv(c, q, threadCount, maxGrow);
    HistoryKeeps(c, q, xs);
    PoolBounds(Later(c, q, xs).pool);
  }

  function Saves(xs: seq<Action>): nat {
    if xs == [] then 0 else (if xs[0].SaveResult? then 1 else 0) + Saves(xs[1..])
  }

  function Inserts(xs: seq<Action>): nat {
    if xs == [] then 0 else (if xs[0].ForeignInsert? then 1 else 0) + Inserts(xs[1..])
  }

  // Every row that is left has the item it had.
  predicate SameItems(rows': Rows, rows: Rows) {
    forall id :: id in rows' ==> id in rows && rows'[id].item == rows[id].item
  }

  // Deleting rows, marking them, or making them due, changes no item.
  lemma RowsKeepItems(rows: Rows, ids: set<int>)
    ensures SameItems(rows, rows) && SameItems(rows - ids, rows) && SameItems(Flushed(rows), rows)
    ensures SameItems(Activated(rows, ids), rows) && SameItems(Deactivated(rows, ids), rows)
  {
  }

  lemma RowKeepsItem(rows: Rows, id: int, r: Row)
    requires id in rows && r.item == rows[id].item
    ensures SameItems(rows[id := r], rows)
  {
  }

  // Nothing but saving a result and new mail changes what the table says of an item.
  lemma OtherAction(c: Config, q: Queue, x: Action)
    requires Possible(c, q, x) && !x.SaveResult? && !x.ForeignInsert?
    ensures SameItems(Do(c, q, x).rows, q.rows)
  {
    hide SameItems, Owned, Enabled, Next, AddAll, Finish, Selection, Activated, Deactivated, Flushed, Saved, Left;
    match x {
      case ForeignRelease(id) => RowKeepsItem(q.rows, id, q.rows[id].(active := false));
      case MarkDeleted(id) => RowKeepsItem(q.rows, id, q.rows[id].(deleted := true));
      case ForeignDelete(id) => RowsKeepItems(q.rows, {id});
      case ControlDelete(ids) => RowsKeepItems(q.rows, ids);
      case Activate => RowsKeepItems(q.rows, q.batch);
      case ClearQueue => RowsKeepItems(q.rows, Ids(q.pool.queue));
      case _ => RowsKeepItems(q.rows, {});
    }
  }

  lemma FewerOrdinary(rows: Rows, rows': Rows)
    requires SameItems(rows', rows)
    ensures |Ordinary(rows')| <= |Ordinary(rows)|
  {
    forall id | id in Ordinary(rows')
      ensures id in Ordinary(rows)
    {
      assert id in rows';
    }
    SubsetSize(Ordinary(rows'), Ordinary(rows));
  }

  // The next result to be saved is that of a row of the table.
  lemma NextResult(c: Config, q: Queue)
    requires QueueInv(c, q) && q.saving != []
    ensures var a := q.saving[0].item;
      a in Held(q) && a.id in q.rows && q.rows[a.id].item == a
  {
    hide Inv, InHand, WorkReady;
    assert Items(q.saving)[0] == q.saving[0].item;
    assert q.saving[0].item in Held(q);
  }

  // ----- no bounce loops -----

  // The saves that put a bounce into the table.
  function BouncesMade(c: Config, q: Queue, xs: seq<Action>): nat
    requires IsHistory(c, q, xs)
    decreases |xs|
  {
    if xs == [] then 0
    else
      var r := Do(c, q, xs[0]);
      (if xs[0].SaveResult? && r.rows.Keys - q.rows.Keys != {} then 1 else 0) + BouncesMade(c, r, xs[1..])
  }

  lemma SaveOrdinary(c: Config, rows: Rows, r: Result, e: Enqueue, now: int)
    requires Fresh(rows, e) && r.item.id in rows && rows[r.item.id].item == r.item
    ensures var rows' := Saved(c, rows, r, e, now);
      |Ordinary(rows')| + (if rows'.Keys - rows.Keys != {} then 1 else 0) <= |Ordinary(rows)|
  {
    var rows' := Saved(c, rows, r, e, now);
    if r.status != Success && Terminal(c, r, now) && Bounces(r.item) {
      assert r.item.id in Ordinary(rows);
      assert Ordinary(rows') <= Ordinary(rows) - {r.item.id};
      SubsetSize(Ordinary(rows'), Ordinary(rows) - {r.item.id});
    } else {
      assert forall id :: id in rows' ==> id in rows;
      assert Ordinary(rows') <= Ordinary(rows);
      SubsetSize(Ordinary(rows'), Ordinary(rows));
    }
  }

  lemma ActionOrdinary(c: Config, q: Queue, x: Action)
    requires QueueInv(c, q) && Possible(c, q, x)
    ensures var made := if x.SaveResult? && Do(c, q, x).rows.Keys - q.rows.Keys != {} then 1 else 0;
      |Ordinary(Do(c, q, x).rows)| + made <= |Ordinary(q.rows)| + Inserts([x])
  {
    hide QueueInv, Enabled, Selection, Saved, Ordinary;
    assert [x][1..] == [];
    if x.SaveResult? {
      NextResult(c, q);
      SaveOrdinary(c, q.rows, q.saving[0], x.e, q.now);
    } else if x.ForeignInsert? {
      OneMore(q.rows, x.id, Do(c, q, x).rows[x.id]);
    } else {
      OtherAction(c, q, x);
      FewerOrdinary(q.rows, Do(c, q, x).rows);
    }
  }

  lemma OneMore(rows: Rows, id: int, row: Row)
    ensures |Ordinary(rows[id := row])| <= |Ordinary(rows)| + 1
  {
    assert Ordinary(rows[id := row]) <= Ordinary(rows) + {id};
    SubsetSize(Ordinary(rows[id := row]), Ordinary(rows) + {id});
  }

  /** No bounce loops: over a whole history there are never more bounces than there were
      messages with a return path, each of which is bounced at most once; bounces beget none. */
  lemma {:induction false} BouncesBounded(c: Config, q: Queue, xs: seq<Action>)
    requires QueueInv(c, q) && IsHistory(c, q, xs)
    ensures BouncesMade(c, q, xs) + |Ordinary(Later(c, q, xs).rows)| <= |Ordinary(q.rows)| + Inserts(xs)
    decreases |xs|
  {
    hide QueueInv, Possible, Do, Ordinary;
    if xs != [] {
      ActionKeeps(c, q, xs[0]);
      ActionOrdinary(c, q, xs[0]);
      BouncesBounded(c, Do(c, q, xs[0]), xs[1..]);
      assert [xs[0]][1..] == [];
    }
  }

  // ----- no mail is lost -----

  // Delivered, failed for good, or failed after the lifetime is over.
  predicate Ends(c: Config, r: Result, now: int) {
    r.status == Success || r.status == FatalError || now > r.item.date + c.lifetime
  }

  // The result of message id is saved at some step, and is the last one.
  predicate Finishes(c: Config, q: Queue, xs: seq<Action>, id: int)
    requires IsHistory(c, q, xs)
    decreases |xs|
  {
    xs != [] && ((xs[0].SaveResult? && q.saving[0].item.id == id && Ends(c, q.saving[0], q.now))
      || Finishes(c, Do(c, q, xs[0]), xs[1..], id))
  }

  predicate Deletes(x: Action, id: int) {
    (x.ForeignDelete? && x.id == id) || (x.ControlDelete? && id in x.ids)
  }

  lemma ActionKeepsMail(c: Config, q: Queue, x: Action, id: int)
    requires Possible(c, q, x) && id in q.rows && !Deletes(x, id)
    ensures id in Do(c, q, x).rows || (x.SaveResult? && q.saving[0].item.id == id && Ends(c, q.saving[0], q.now))
  {
    hide Owned, Enabled, Selection;
  }

  /** A message leaves the table only by a result of its own that ends it, or because its writer
      gives it up or somebody deletes it. */
  lemma {:induction false} MailKept(c: Config, q: Queue, xs: seq<Action>, id: int)
    requires IsHistory(c, q, xs) && id in q.rows
    requires forall i :: 0 <= i < |xs| ==> !Deletes(xs[i], id)
    ensures id in Later(c, q, xs).rows || Finishes(c, q, xs, id)
    decreases |xs|
  {
    hide Do, Possible, Ends, Deletes;
    if xs != [] {
      ActionKeepsMail(c, q, xs[0], id);
      if id in Do(c, q, xs[0]).rows {
        MailKept(c, Do(c, q, xs[0]), xs[1..], id);
      }
    }
  }

  // ----- shutdown -----

  // A bounce for which EnqueueMessage could not make its temporary file.
  predicate BounceLost(c: Config, q: Queue, x: Action)
    requires Possible(c, q, x)
  {
    x.SaveResult? && x.e.NoTempFile? && q.saving[0].status != Success && Terminal(c, q.saving[0], q.now)
    && Bounces(q.saving[0].item)
  }

  predicate NoBounceLost(c: Config, q: Queue, xs: seq<Action>)
    requires IsHistory(c, q, xs)
    decreases |xs|
  {
    xs == [] || (!BounceLost(c, q, xs[0]) && NoBounceLost(c, Do(c, q, xs[0]), xs[1..]))
  }

  lemma OrphanStep(c: Config, q: Queue, x: Action)
    requires QueueInv(c, q) && Possible(c, q, x)
    ensures q.orphans <= Do(c, q, x).orphans
    ensures Do(c, q, x).orphans == q.orphans <==> !BounceLost(c, q, x)
  {
    hide Inv, Held, Enabled, Selection, Saved, Next;
    if x.SaveResult? && BounceLost(c, q, x) {
      assert x.e.id in Do(c, q, x).orphans;
      assert x.e.id !in q.orphans;
    }
  }

  lemma {:induction false} OrphansExactly(c: Config, q: Queue, xs: seq<Action>)
    requires QueueInv(c, q) && IsHistory(c, q, xs)
    ensures q.orphans <= Later(c, q, xs).orphans
    ensures Later(c, q, xs).orphans == q.orphans <==> NoBounceLost(c, q, xs)
    decreases |xs|
  {
    hide Do, Possible, BounceLost, QueueInv;
    if xs != [] {
      OrphanStep(c, q, xs[0]);
      ActionKeeps(c, q, xs[0]);
      OrphansExactly(c, Do(c, q, xs[0]), xs[1..]);
    }
  }

  /** Shutdown, whatever went before: when the pool has been stopped, the results saved and
      the queue cleared, nothing is held any more; and apart from rows that other processes
      are still writing, no row is left active exactly if no bounce was lost for want of a
      temporary file. */
  lemma ShutdownLeavesNothing(c: Config, q: Queue, xs: seq<Action>, threadCount: nat, maxGrow: nat)
    requires Initial(q, threadCount, maxGrow) && IsHistory(c, q, xs)
    requires Possible(c, Later(c, q, xs), ClearQueue)
    ensures var r := Do(c, Later(c, q, xs), ClearQueue);
      && Held(r) == multiset{} && r.work == [] && r.batch == {}
      && (forall id :: id in r.rows ==> (r.rows[id].active <==> id in r.apart))
      && r.orphans <= r.apart
      && (r.orphans == {} <==> NoBounceLost(c, q, xs))
  {
    hide Held, Inv, Later, IsHistory, NoBounceLost, Enabled, Owned;
    InitialInv(c, q, threadCount, maxGrow);
    HistoryKeeps(c, q, xs);
    ClearKeeps(c, Later(c, q, xs));
    OrphansExactly(c, q, xs);
  }
}
