/** What becomes of a message in the queue, in terms of its dates, attempts and results. */
module QueueOutcome {
  import opened ThreadPool
  import opened MsgQueue
  import opened MsgHistory
  import opened MessageQueue

  // ----- the result of one delivery -----

  /** A message stays exactly if it failed, not for good, and is within its lifetime: with one
      attempt more, tried now, free to be selected again, and deleted by nobody; all other
      messages stay as they are. */
  lemma KeptIff(c: Config, q: Queue, e: Enqueue)
    requires Possible(c, q, SaveResult(e))
    ensures var r, after := q.saving[0], Do(c, q, SaveResult(e)).rows;
      var a := r.item;
      && (a.id in after <==> r.status != Success && r.status != FatalError && q.now <= a.date + c.lifetime)
      && (a.id in after ==> after[a.id] == Row(a.(attempts := a.attempts + 1), q.now, false, q.rows[a.id].deleted))
      && forall id :: id in q.rows && id != a.id ==> id in after && after[id] == q.rows[id]
  {
  }

  predicate SameLetter(x: char, y: char) {
    || x == y || ('A' <= x <= 'Z' && y as int == x as int + 32)
    || ('A' <= y <= 'Z' && x as int == y as int + 32)
  }

  lemma LowerIs(x: char, y: char)
    ensures Lower(x) == Lower(y) <==> SameLetter(x, y)
  {
  }

  lemma SameAddressIs(a: string, b: string)
    ensures SameAddress(a, b) <==> |a| == |b| && forall i :: 0 <= i < |a| ==> SameLetter(a[i], b[i])
  {
    hide Lower, SameLetter;
    forall i | 0 <= i < |a| == |b|
      ensures Lower(a[i]) == Lower(b[i]) <==> SameLetter(a[i], b[i])
    {
      LowerIs(a[i], b[i]);
    }
  }

  // A bounce is due: the message has failed for good or for too long, and its return path has
  // five characters and is not, letter case aside, the recipient.
  predicate Bounced(c: Config, r: Result, now: int) {
    && (r.status == FatalError || (r.status != Success && now > r.item.date + c.lifetime))
    && |r.item.from| >= 5
    && (|r.item.from| != |r.item.to| || exists i :: 0 <= i < |r.item.from| && !SameLetter(r.item.from[i], r.item.to[i]))
  }

  /** A bounce is made exactly then, if the queue file can be written. It goes to the return
      path, has none itself, and waits for its first attempt. */
  lemma BouncedIff(c: Config, q: Queue, e: Enqueue, id: int)
    requires Possible(c, q, SaveResult(e)) && id !in q.rows
    ensures var r, after := q.saving[0], Do(c, q, SaveResult(e)).rows;
      && (id in after <==> Bounced(c, r, q.now) && !e.NoQueueFile? && id == e.id)
      && (id in after ==> after[id] == Row(Item(id, q.now, "", r.item.from, 0), 0, e.NoTempFile?, false))
  {
    hide SameAddress, SameLetter;
    SameAddressIs(q.saving[0].item.from, q.saving[0].item.to);
  }

  // ----- what is selected -----

  // Some time has passed since the last attempt, more with every attempt.
  predicate Waiting(c: Config, q: Queue, id: int)
    requires id in q.rows
  {
    var row := q.rows[id];
    !row.deleted && !row.active && row.lastAttempt + c.retry * row.item.attempts < q.now
  }

  // Fewest attempts first, then those tried longest ago, then the oldest.
  predicate Before(x: Row, y: Row) {
    if x.item.attempts != y.item.attempts then x.item.attempts < y.item.attempts
    else if x.lastAttempt != y.lastAttempt then x.lastAttempt < y.lastAttempt
    else x.item.id < y.item.id
  }

  /** Nothing is selected that is not waiting; and what is waiting is selected unless the pool
      queue is filled up to a thousand with others that come before it. */
  lemma SelectedIff(c: Config, q: Queue, items: seq<Item>, id: int)
    requires Possible(c, q, SelectWork(items)) && id in q.rows
    ensures q.rows[id].item in items && q.rows[id].item.id == id ==> Waiting(c, q, id)
    ensures Waiting(c, q, id) && q.rows[id].item !in items ==>
      |q.pool.queue| + |items| >= 1000 && forall a :: a in items ==> a.id in q.rows && Before(q.rows[a.id], q.rows[id])
    ensures forall i, j :: 0 <= i < j < |items| ==>
      items[i].id in q.rows && items[j].id in q.rows && Before(q.rows[items[i].id], q.rows[items[j].id])
  {
    hide Enabled;
    DueIs(c, q.rows[id], q.now);
  }

  lemma DueIs(c: Config, row: Row, now: int)
    ensures Due(c, row, now) <==> row.lastAttempt + c.retry * row.item.attempts < now
  {
    assert row.item.attempts * c.retry == c.retry * row.item.attempts;
  }

  /** A message that was put off is tried again: as soon as retry times its attempts have passed
      it is selected, unless a thousand others with no more attempts are before it. */
  lemma DeferredIsRetried(c: Config, q: Queue, e: Enqueue, later: Queue, items: seq<Item>)
    requires Possible(c, q, SaveResult(e)) && q.saving[0].item.id in Do(c, q, SaveResult(e)).rows
    requires var a := q.saving[0].item;
      && a.id in later.rows && later.rows[a.id] == Do(c, q, SaveResult(e)).rows[a.id] && !later.rows[a.id].deleted
      && later.now > q.now + c.retry * (a.attempts + 1)
    requires Possible(c, later, SelectWork(items))
    ensures var a := q.saving[0].item;
      a.(attempts := a.attempts + 1) in items
      || (|later.pool.queue| + |items| >= 1000 && forall b :: b in items ==> b.attempts <= a.attempts + 1)
  {
    hide Enabled, Selection, Do;
    KeptIff(c, q, e);
    SelectedIff(c, later, items, q.saving[0].item.id);
    SelectedRows(c, later, items);
  }

  lemma SelectedRows(c: Config, q: Queue, items: seq<Item>)
    requires Possible(c, q, SelectWork(items))
    ensures forall a :: a in items ==> a.id in q.rows && q.rows[a.id].item == a
  {
    hide Enabled;
  }

  /** A flush makes everything due that has been put off and is not deleted. */
  lemma FlushMakesDue(c: Config, q: Queue, id: int)
    requires Possible(c, q, Flush) && id in q.rows
    ensures var after := Do(c, q, Flush);
      && after == q.(rows := after.rows) && after.rows.Keys == q.rows.Keys
      && after.rows[id] == (if q.rows[id].deleted then q.rows[id] else q.rows[id].(lastAttempt := 0))
      && (Waiting(c, after, id) <==> !q.rows[id].deleted && !q.rows[id].active && c.retry * q.rows[id].item.attempts < q.now)
  {
  }

  // ----- ProcessQueue -----

  /** After ProcessQueue the rows marked for deletion are gone unless they were active, those
      selected are active and at the end of the pool queue, and all others are as they were. */
  lemma ProcessedRows(c: Config, q: Queue, items: seq<Item>, picks: seq<nat>, r: Queue, id: int)
    requires Processed(c, q, items, picks, r) && forall k :: k in q.rows ==> q.rows[k].item.id == k
    ensures id in r.rows <==> id in q.rows && !(q.rows[id].deleted && !q.rows[id].active)
    ensures id in r.rows ==> r.rows[id] == q.rows[id].(active := q.rows[id].active || q.rows[id].item in items)
    ensures r.results == q.results && r.saving == q.saving && r.apart == q.apart && r.now == q.now
    ensures r.pool.queue == q.pool.queue + items
  {
    hide Enabled, AddAll, Selection, Activated, Ids, Handed, Marked, Possible, Next, Finish, Saved;
    var q1 := Do(c, q, ControlDelete(Marked(q.rows)));
    DeletedRows(c, q, id);
    SelectedRows(c, q1, items);
    HandedIs(c, q1, items, picks);
    AddAllHand(q1.pool, items, picks, q1.pool.queue, InHand(q1.pool.workers));
    ActivatedRow(q1.rows, Ids(items), id);
    if id in q1.rows {
      IdsOfRows(q1.rows, items, id);
    }
  }

  lemma DeletedRows(c: Config, q: Queue, id: int)
    requires Possible(c, q, ControlDelete(Marked(q.rows)))
    ensures var r := Do(c, q, ControlDelete(Marked(q.rows)));
      && r == q.(rows := r.rows) && (id in r.rows <==> id in q.rows && !(q.rows[id].deleted && !q.rows[id].active))
      && (id in r.rows ==> r.rows[id] == q.rows[id])
  {
  }

  lemma ActivatedRow(rows: Rows, ids: set<int>, id: int)
    ensures id in Activated(rows, ids) <==> id in rows
    ensures id in rows ==> Activated(rows, ids)[id] == rows[id].(active := rows[id].active || id in ids)
  {
  }

  lemma HandedIs(c: Config, q: Queue, items: seq<Item>, picks: seq<nat>)
    requires Possible(c, q, SelectWork(items))
    ensures Handed(c, q, items, picks) ==
      q.(rows := Activated(q.rows, Ids(items)), pool := AddAll(q.pool, items, picks), work := [], batch := {})
  {
    hide Enabled, AddAll, Selection, Activated, Ids;
    AddAllStep(q.pool, items, picks);
    if items == [] {
      ActivatedNone(q.rows, items);
    }
  }

  lemma IdsOfRows(rows: Rows, items: seq<Item>, id: int)
    requires id in rows && rows[id].item.id == id
    requires forall a :: a in items ==> a.id in rows && rows[a.id].item == a
    ensures id in Ids(items) <==> rows[id].item in items
  {
  }

  /** The flag that ProcessQueue leaves says whether something is still waiting. */
  lemma MoreEntriesIs(c: Config, q: Queue)
    ensures MoreEntries(c, q.rows, q.now) <==> exists id :: id in q.rows && Waiting(c, q, id)
  {
    forall id | id in q.rows
      ensures Eligible(c, q.rows[id], q.now) <==> Waiting(c, q, id)
    {
      DueIs(c, q.rows[id], q.now);
    }
  }

  // ----- no mail is lost, by what the workers report -----

  // A worker has reported the result in the course of the history.
  ghost predicate Reported(c: Config, q: Queue, xs: seq<Action>, r: Result)
    requires IsHistory(c, q, xs)
    decreases |xs|
  {
    xs != [] && ((xs[0].WorkDone? && r == Result(q.pool.workers[xs[0].t].pc.job, xs[0].status))
      || Reported(c, Do(c, q, xs[0]), xs[1..], r))
  }

  lemma NewResults(c: Config, q: Queue, x: Action, r: Result)
    requires Possible(c, q, x)
    ensures var after := Do(c, q, x);
      (r in after.results || r in after.saving) && !(x.WorkDone? && r == Result(q.pool.workers[x.t].pc.job, x.status)) ==>
        r in q.results || r in q.saving
    ensures q.now <= Do(c, q, x).now
  {
    hide Enabled, Selection, Saved, AddAll, Activated, Deactivated, Flushed, Next, Finish, Left;
  }

  lemma SomethingSaved(c: Config, q: Queue, x: Action)
    requires Possible(c, q, x)
    ensures x.SaveResult? ==> q.saving != []
  {
    hide Enabled, Selection;
  }

  lemma {:induction false} NowRises(c: Config, q: Queue, xs: seq<Action>)
    requires IsHistory(c, q, xs)
    ensures q.now <= Later(c, q, xs).now
    decreases |xs|
  {
    hide Do, Possible;
    if xs != [] {
      NewResults(c, q, xs[0], Result(Item(0, 0, "", "", 0), Success));
      NowRises(c, Do(c, q, xs[0]), xs[1..]);
    }
  }

  /** If a message is gone and nobody has deleted it, a worker has reported that it was delivered
      or has failed for good, or has reported a failure and its lifetime is over. */
  lemma {:induction false} LostBecause(c: Config, q: Queue, xs: seq<Action>, id: int) returns (r: Result)
    requires IsHistory(c, q, xs) && id in q.rows && id !in Later(c, q, xs).rows
    requires forall i :: 0 <= i < |xs| ==> !Deletes(xs[i], id)
    ensures r in q.results || r in q.saving || Reported(c, q, xs, r)
    ensures r.item.id == id
    ensures r.status == Success || r.status == FatalError || Later(c, q, xs).now > r.item.date + c.lifetime
    decreases |xs|
  {
    hide Do, Possible, Deletes;
    var x := xs[0];
    ActionKeepsMail(c, q, x, id);
    if id in Do(c, q, x).rows {
      r := LostBecause(c, Do(c, q, x), xs[1..], id);
      NewResults(c, q, x, r);
    } else {
      SomethingSaved(c, q, x);
      r := q.saving[0];
      NowRises(c, q, xs);
    }
  }

  lemma NeverDeletes(stop: seq<Action>, saves: seq<Action>, id: int)
    requires StopsOnly(stop) && SavesOnly(saves)
    ensures forall i :: 0 <= i < |stop + saves + [ClearQueue]| ==> !Deletes((stop + saves + [ClearQueue])[i], id)
  {
  }

  /** The same for shutdown, which deletes nothing: what is gone afterwards had been delivered, had
      failed for good, or had failed and outlived its time. */
  lemma ShutdownKeepsMail(c: Config, q: Queue, stop: seq<Action>, saves: seq<Action>, id: int) returns (r: Result)
    requires StopsOnly(stop) && SavesOnly(saves) && IsHistory(c, q, stop + saves + [ClearQueue])
    requires id in q.rows && id !in Later(c, q, stop + saves + [ClearQueue]).rows
    ensures r in q.results || r in q.saving || Reported(c, q, stop + saves + [ClearQueue], r)
    ensures r.item.id == id
    ensures r.status == Success || r.status == FatalError
      || Later(c, q, stop + saves + [ClearQueue]).now > r.item.date + c.lifetime
  {
    hide Later, IsHistory, StopsOnly, SavesOnly, Deletes;
    NeverDeletes(stop, saves, id);
    r := LostBecause(c, q, stop + saves + [ClearQueue], id);
  }
}
