/** The thread pool object: each method is one section of ThreadPool's code. */
module JobPool {
  import opened ThreadPool

  function Members(s: seq<nat>): set<nat> {
    set t | t in s
  }

  lemma NoMembers(s: seq<nat>)
    requires s == []
    ensures Members(s) == {}
  {
  }

  // What has been popped and done stays so.
  ghost predicate Further<J>(p: Pool<J>, q: Pool<J>) {
    p.popped <= q.popped && p.done <= q.done
  }

  class JobPool<J> {
    const threadCount: nat
    const maxGrow: nat
    var run: bool
    var queue: seq<J>
    var busyThreads: int
    var createdThreads: nat
    var threads: seq<nat>
    var finished: seq<nat>
    var workers: seq<Worker<J>>
    ghost var added: seq<J>
    ghost var popped: seq<J>
    ghost var done: seq<J>
    ghost var dropped: seq<J>

    ghost function State(): Pool<J>
      reads this
    {
      Pool(threadCount, maxGrow, run, queue, busyThreads, createdThreads, threads, finished, workers,
        added, popped, done, dropped)
    }

    constructor (threadCount: nat, maxGrow: nat)
      ensures State() == New(threadCount, maxGrow)
    {
      var count := if threadCount < 1 then 1 else threadCount;
      this.threadCount := count;
      this.maxGrow := if maxGrow < count then count else maxGrow;
      run, queue, busyThreads, createdThreads, threads, finished, workers := false, [], 0, 0, [], [], [];
      added, popped, done, dropped := [], [], [], [];
    }

    method Create(isDynamic: bool)
      modifies this
      ensures State() == Spawn(old(State()), isDynamic)
    {
      threads := threads + [|workers|];
      workers := workers + [Worker(isDynamic, false, Ready(true))];
      createdThreads := createdThreads + 1;
    }

    method GrowPool()
      modifies this
      ensures State() == Grow(old(State()))
    {
      if createdThreads >= maxGrow {
        return;
      }
      Create(true);
    }

    // pthread_cond_signal; pick is the thread that the system would wake.
    method SignalOne(pick: nat)
      modifies this`workers
      ensures State() == Signal(old(State()), pick)
    {
      var u := Chosen(workers, pick);
      if u < |workers| {
        workers := workers[u := workers[u].(pc := Waiting(true))];
      }
    }

    method AddToQueue(item: J, pick: nat)
      modifies this
      ensures State() == Add(old(State()), item, pick)
    {
      hide Signal;
      queue, added := queue + [item], added + [item];
      if (busyThreads >= createdThreads || |queue| > createdThreads) && createdThreads < maxGrow {
        GrowPool();
      }
      SignalOne(pick);
    }

    // One round of shrink; the thread is gone, so joining it does not block.
    method ForgetFirst()
      requires Inv(State()) && run && |workers| >= threadCount && finished != []
      modifies this`finished, this`threads, this`createdThreads
      ensures Inv(State()) && finished == old(finished)[1..]
      ensures Members(threads) == Members(old(threads)) - {old(finished)[0]}
      ensures Members(old(finished)) == Members(finished) + {old(finished)[0]}
    {
      var thread := finished[0];
      ghost var before := State();
      assert thread in finished;
      ShrinkKeeps(before);
      WithoutFacts(threads, thread);
      var i := IndexOf(threads, thread);
      if i < |threads| {
        threads := threads[..i] + threads[i + 1..];
      }
      finished := finished[1..];
      createdThreads := createdThreads - 1;
      assert State() == ShrinkOne(before);
    }

    /** Joins every finished thread and takes it off the list. */
    method Shrink()
      requires Inv(State()) && run && |workers| >= threadCount
      modifies this`finished, this`threads, this`createdThreads
      ensures Inv(State()) && finished == []
      ensures Members(threads) == Members(old(threads)) - Members(old(finished))
    {
      hide Inv, Members;
      ghost var gone := {};
      while |finished| > 0
        invariant Inv(State())
        invariant Members(threads) == Members(old(threads)) - gone
        invariant gone + Members(finished) == Members(old(finished))
        decreases |finished|
      {
        gone := gone + {finished[0]};
        ForgetFirst();
      }
      NoMembers(finished);
    }

    method StartUp()
      requires State() == New(threadCount, maxGrow)
      modifies this
      ensures Inv(State()) && run && |workers| == threadCount == |threads|
      ensures queue == [] && added == [] && finished == [] && busyThreads == 0 && createdThreads == threadCount
      ensures forall t :: 0 <= t < threadCount ==> threads[t] == t && workers[t] == Worker(false, false, Ready(true))
    {
      hide Inv;
      run := true;
      NewInv<J>(threadCount, maxGrow);
      StartKeeps(old(State()));
      assert State() == Next(old(State()), MainStart);
      for i := 0 to threadCount
        invariant Inv(State()) && run && |workers| == i == |threads| == createdThreads
        invariant queue == [] && added == [] && finished == [] && busyThreads == 0
        invariant forall t :: 0 <= t < i ==> threads[t] == t && workers[t] == Worker(false, false, Ready(true))
      {
        PoolBounds(State());
        SpawnKeeps(State(), false);
        Create(false);
      }
    }

    // The part of popJob after the wait.
    method TakeJob(t: nat, skipWait: bool, pick: nat)
      requires t < |workers|
      modifies this
      ensures State() == Take(old(State()), t, !skipWait, pick)
    {
      hide Signal;
      var w := workers[t];
      if |queue| > 0 {
        var job := queue[0];
        queue, popped := queue[1..], popped + [job];
        if !skipWait && !w.isBusy {
          busyThreads := busyThreads + 1;
          w := w.(isBusy := true);
        }
        w := w.(pc := Working(job));
      } else {
        w := w.(pc := if w.isDynamic then Leaving else Checking);
      }
      workers := workers[t := w];
      if |queue| > 0 {
        SignalOne(pick);
      }
    }

    method PopJob(t: nat, pick: nat)
      requires t < |workers| && workers[t].pc.Ready?
      modifies this
      ensures State() == Enter(old(State()), t, pick)
    {
      var w := workers[t];
      if !run {
        workers := workers[t := w.(pc := if w.isDynamic then Leaving else Checking)];
      } else if !w.pc.skipWait {
        if w.isBusy {
          busyThreads := busyThreads - 1;
        }
        workers := workers[t := Worker(w.isDynamic, false, Waiting(false))];
      } else {
        TakeJob(t, true, pick);
      }
    }

    method JobDone(t: nat)
      requires t < |workers| && workers[t].pc.Working?
      modifies this
      ensures State() == Finish(old(State()), t)
    {
      done := done + [workers[t].pc.job];
      workers := workers[t := workers[t].(pc := Checking)];
    }

    method LookForMore(t: nat)
      requires t < |workers| && workers[t].pc.Checking?
      modifies this
      ensures State() == Check(old(State()), t)
    {
      var skipWait, doRun := |queue| != 0, run;
      var w := workers[t];
      workers := workers[t := w.(pc := if doRun then Ready(skipWait) else if w.isDynamic then Leaving else Exited)];
    }

    method ReportFinished(t: nat)
      requires t < |workers| && workers[t].pc.Leaving?
      modifies this
      ensures State() == Leave(old(State()), t)
    {
      finished := finished + [t];
      workers := workers[t := workers[t].(pc := Exited)];
    }

    // Some thread that has a step of its own gets to run.
    method Schedule(t: nat, pick: nat)
      requires t < |workers| && !workers[t].pc.Exited? && (Sleeps(workers, t) ==> workers[t].isDynamic)
      modifies this
      ensures exists s :: Owed(old(State()), t, s) && State() == Next(old(State()), s)
    {
      hide Enter, Take;
      ghost var before := State();
      match workers[t].pc {
        case Ready(_) =>
          PopJob(t, pick);
          assert Owed(before, t, WorkerEnter(t, pick));
        case Waiting(_) =>
          TakeJob(t, false, pick);
          assert Owed(before, t, WorkerWake(t, pick));
        case Working(_) =>
          JobDone(t);
          assert Owed(before, t, WorkerFinish(t));
        case Checking =>
          LookForMore(t);
          assert Owed(before, t, WorkerCheck(t));
        case Leaving =>
          ReportFinished(t);
          assert Owed(before, t, WorkerLeave(t));
      }
    }

    // pthread_join: returns when thread is gone; meanwhile the others run as they please.
    method Join(thread: nat, schedule: nat -> nat)
      requires Inv(State()) && !run && thread < |workers|
      modifies this
      ensures Inv(State()) && !run && |workers| == |old(workers)| && Gone(State(), thread)
      ensures threads == old(threads) && added == old(added) && dropped == old(dropped) && Further(old(State()), State())
    {
      hide Enabled, Next, Conserved, Counted, Listed, Bounded;
      var round := 0;
      while !workers[thread].pc.Exited?
        invariant Inv(State()) && !run && |workers| == |old(workers)|
        invariant threads == old(threads) && added == old(added) && dropped == old(dropped) && Further(old(State()), State())
        decreases TotalRank(workers)
      {
        var t := schedule(round);
        if t >= |workers| || workers[t].pc.Exited? {
          t := thread;
        }
        ghost var before := State();
        ghost var own := NeverStuck(before, t);
        assert !Sleeps(workers, t);
        Schedule(t, schedule(round));
        ghost var s :| Owed(before, t, s) && State() == Next(before, s);
        StepKeeps(before, s);
        StopProgress(before, s);
        WorkerFrame(before, s);
        round := round + 1;
      }
    }

    // Takes a joined thread off the list.
    method ForgetLast()
      requires Enabled(State(), MainJoin)
      modifies this`threads
      ensures State() == Next(old(State()), MainJoin)
    {
      threads := threads[..|threads| - 1];
    }

    // The run flag is cleared and all waiting threads are woken.
    method ClearRun()
      requires Enabled(State(), MainStop)
      modifies this`run, this`workers
      ensures State() == Next(old(State()), MainStop)
    {
      run := false;
      workers := Broadcast(workers);
    }

    // One round of stop. The list is only seen by the main thread, so it does not matter
    // that the entry is really taken off before the thread is joined.
    method JoinLast(schedule: nat -> nat)
      requires Inv(State()) && !run && threads != []
      modifies this
      ensures Inv(State()) && !run && |threads| == |old(threads)| - 1
      ensures added == old(added) && dropped == old(dropped) && Further(old(State()), State())
    {
      var thread := threads[|threads| - 1];
      assert thread in threads;
      Join(thread, schedule);
      JoinKeeps(State());
      ForgetLast();
    }

    /** Stops the pool. Whatever the scheduling, it returns, no thread is left, every popped
        job is done, and the jobs not popped are still queued in order. */
    method Stop(schedule: nat -> nat)
      requires Inv(State()) && run && |workers| >= threadCount
      modifies this
      ensures Inv(State()) && !run && threads == [] && InHand(workers) == multiset{}
      ensures added == old(added) == popped + queue && multiset(popped) == multiset(done)
      ensures Further(old(State()), State())
    {
      ghost var before := State();
      StopKeeps(before);
      ClearRun();
      while |threads| > 0
        invariant Inv(State()) && !run && added == old(added) && dropped == [] && Further(old(State()), State())
        decreases |threads|
      {
        JoinLast(schedule);
      }
      StoppedPool(State());
      assert popped + queue + [] == popped + queue;
    }

    // queue.clear()
    method Clear()
      modifies this`queue, this`dropped
      ensures State() == old(State()).(queue := [], dropped := old(queue) + old(dropped))
    {
      dropped := queue + dropped;
      queue := [];
    }
  }
}
