/** What single steps of the pool come to: when it grows, who is woken, and who takes what. */
module PoolOutcome {
  import opened ThreadPool
  import opened PoolRuns

  // One of the threads that sleep has been woken, if any did; nothing else has changed.
  ghost predicate OneWoken<J>(ws: seq<Worker<J>>, us: seq<Worker<J>>) {
    if exists t :: 0 <= t < |ws| && ws[t].pc == Waiting(false)
    then exists t :: 0 <= t < |ws| && ws[t].pc == Waiting(false) && us == ws[t := ws[t].(pc := Waiting(true))]
    else us == ws
  }

  lemma SignalWakes<J>(p: Pool<J>, pick: nat)
    ensures OneWoken(p.workers, Signal(p, pick).workers)
  {
    var u := Chosen(p.workers, pick);
    if u < |p.workers| {
      assert Sleeps(p.workers, u);
    } else if t :| 0 <= t < |p.workers| && p.workers[t].pc == Waiting(false) {
      assert Sleeps(p.workers, t);
    }
  }

  /** Adding a job: the pool grows by one ready thread exactly if it may, and every thread is
      busy or at least as many jobs are waiting as there are threads; one sleeper is woken. */
  lemma AddGrowsIff<J>(p: Pool<J>, job: J, pick: nat)
    requires Enabled(p, MainAdd(job, pick))
    ensures var q := Next(p, MainAdd(job, pick));
      var grows := p.createdThreads < p.maxGrow && (p.busyThreads >= p.createdThreads || |p.queue| >= p.createdThreads);
      && q == p.(queue := p.queue + [job], added := p.added + [job], workers := q.workers,
           threads := if grows then p.threads + [|p.workers|] else p.threads,
           createdThreads := if grows then p.createdThreads + 1 else p.createdThreads)
      && OneWoken(p.workers + if grows then [Worker(true, false, Ready(true))] else [], q.workers)
  {
    hide Signal, Chosen, OneWoken;
    SignalWakes(Push(p, job), pick);
    assert p.workers + [] == p.workers;
  }

  /** A thread that has waited takes the first job, counts as busy, and wakes another one if
      there are more jobs; without a job it looks again, or leaves if it is dynamic. */
  lemma WakeTakes<J>(p: Pool<J>, t: nat, pick: nat)
    requires Enabled(p, WorkerWake(t, pick))
    ensures var q, w := Next(p, WorkerWake(t, pick)), p.workers[t];
      if p.queue == [] then q == p.(workers := p.workers[t := w.(pc := if w.isDynamic then Leaving else Checking)])
      else
        && q == p.(queue := p.queue[1..], popped := p.popped + [p.queue[0]], workers := q.workers,
             busyThreads := if w.isBusy then p.busyThreads else p.busyThreads + 1)
        && var us := p.workers[t := Worker(w.isDynamic, true, Working(p.queue[0]))];
           if |p.queue| > 1 then OneWoken(us, q.workers) else q.workers == us
  {
    hide Signal, Chosen, OneWoken;
    SignalWakes(Pop(p, t, true), pick);
  }

  /** A thread that need not wait takes the first job in the same way, but does not count it; any
      other one gives up being busy and goes to sleep, whether or not there is a job. */
  lemma EnterTakes<J>(p: Pool<J>, t: nat, pick: nat)
    requires Enabled(p, WorkerEnter(t, pick)) && p.run
    ensures var q, w := Next(p, WorkerEnter(t, pick)), p.workers[t];
      if !w.pc.skipWait then
        q == p.(workers := p.workers[t := Worker(w.isDynamic, false, Waiting(false))],
          busyThreads := if w.isBusy then p.busyThreads - 1 else p.busyThreads)
      else if p.queue == [] then q == p.(workers := p.workers[t := w.(pc := if w.isDynamic then Leaving else Checking)])
      else
        && q == p.(queue := p.queue[1..], popped := p.popped + [p.queue[0]], workers := q.workers)
        && var us := p.workers[t := w.(pc := Working(p.queue[0]))];
           if |p.queue| > 1 then OneWoken(us, q.workers) else q.workers == us
  {
    hide Signal, Chosen, OneWoken;
    SignalWakes(Pop(p, t, false), pick);
  }

  /** After a job the thread takes the next one without waiting exactly if there is one; once the
      pool is stopped it ends, and a dynamic thread says so for shrink. */
  lemma AfterJob<J>(p: Pool<J>, t: nat)
    requires t < |p.workers|
    ensures p.workers[t].pc.Working? ==>
      Next(p, WorkerFinish(t)) == p.(done := p.done + [p.workers[t].pc.job], workers := p.workers[t := p.workers[t].(pc := Checking)])
    ensures p.workers[t].pc.Checking? ==>
      Next(p, WorkerCheck(t)) == p.(workers := p.workers[t := p.workers[t].(
        pc := if p.run then Ready(|p.queue| > 0) else if p.workers[t].isDynamic then Leaving else Exited)])
    ensures p.workers[t].pc.Leaving? ==>
      Next(p, WorkerLeave(t)) == p.(finished := p.finished + [t], workers := p.workers[t := p.workers[t].(pc := Exited)])
  {
  }

  /** Stopping wakes every thread that sleeps, and a thread that comes to popJob afterwards takes
      no job. */
  lemma StopWakes<J>(p: Pool<J>, t: nat)
    requires Enabled(p, MainStop) && t < |p.workers|
    ensures var q := Next(p, MainStop);
      && q == p.(run := false, workers := q.workers) && |q.workers| == |p.workers|
      && q.workers[t] == (if p.workers[t].pc == Waiting(false) then p.workers[t].(pc := Waiting(true)) else p.workers[t])
      && (q.workers[t].pc.Ready? ==> forall pick :: Next(q, WorkerEnter(t, pick)).popped == p.popped)
  {
  }

  // ----- the first job of a thread is not counted -----

  // One static thread and room for another; queue is what waits behind the jobs popped.
  function OneOfTwo(queue: seq<int>, popped: seq<int>, pc: Pc<int>): Pool<int> {
    Pool(1, 2, true, queue, 0, 1, [0], [], [Worker(false, false, pc)], popped + queue, popped, [], [])
  }

  lemma FirstTaken()
    ensures Enabled(OneOfTwo([7], [], Ready(true)), WorkerEnter(0, 0))
    ensures Next(OneOfTwo([7], [], Ready(true)), WorkerEnter(0, 0)) == OneOfTwo([], [7], Working(7))
  {
    hide Next, OneWoken;
    var p := OneOfTwo([7], [], Ready(true));
    EnterTakes(p, 0, 0);
    assert p.workers[0 := Worker(false, false, Working(7))] == [Worker(false, false, Working(7))];
    assert p.queue[1..] == [];
  }

  lemma FirstAdded()
    ensures Enabled(OneOfTwo([], [], Ready(true)), MainAdd(7, 0))
    ensures Next(OneOfTwo([], [], Ready(true)), MainAdd(7, 0)) == OneOfTwo([7], [], Ready(true))
  {
    hide Next;
    var p := OneOfTwo([], [], Ready(true));
    AddGrowsIff(p, 7, 0);
    assert p.workers + [] == p.workers;
  }

  /** All threads at work and room for another one, and yet the pool does not grow for the next
      job, which has to wait: the first job of a thread is taken without counting. */
  lemma FirstJobUncounted() returns (p: Pool<int>, steps: seq<Step<int>>)
    ensures IsRun(New(1, 2), steps) && After(New(1, 2), steps) == p
    ensures p.createdThreads < p.maxGrow && forall t :: 0 <= t < |p.workers| ==> p.workers[t].pc.Working?
    ensures Enabled(p, MainAdd(8, 0)) && Next(p, MainAdd(8, 0)) == p.(queue := [8], added := [7, 8])
  {
    p := OneOfTwo([], [7], Working(7));
    steps := FirstSteps();
    AddGrowsIff(p, 8, 0);
    assert p.workers + [] == p.workers;
  }

  lemma FirstSteps() returns (steps: seq<Step<int>>)
    ensures IsRun(New(1, 2), steps) && After(New(1, 2), steps) == OneOfTwo([], [7], Working(7))
  {
    hide IsRun, After;
    var p1 := New<int>(1, 2).(run := true);
    NothingRun(OneOfTwo([], [7], Working(7)));
    FirstTaken();
    FirstAdded();
    steps := Before(WorkerEnter(0, 0), OneOfTwo([7], [], Ready(true)), OneOfTwo([], [7], Working(7)), []);
    steps := Before(MainAdd(7, 0), OneOfTwo([], [], Ready(true)), OneOfTwo([7], [], Ready(true)), steps);
    steps := Before(MainSpawn, p1, OneOfTwo([], [], Ready(true)), steps);
    steps := Before(MainStart, New(1, 2), p1, steps);
  }

  lemma NothingRun(p: Pool<int>)
    ensures IsRun(p, []) && After(p, []) == p
  {
  }

  /** While there is room for another thread, a job makes the pool grow exactly if as many of its
      workers are marked busy as there are threads, or as many jobs are waiting. */
  lemma GrowsByMarks<J>(p: Pool<J>, job: J, pick: nat)
    requires Enabled(p, MainAdd(job, pick)) && Inv(p) && p.createdThreads < p.maxGrow
    ensures |Next(p, MainAdd(job, pick)).workers| > |p.workers| <==>
      Busy(p.workers) >= |p.threads| || |p.queue| >= |p.threads|
  {
    hide Next, OneWoken;
    AddGrowsIff(p, job, pick);
    var q := Next(p, MainAdd(job, pick));
    WokenSize(p.workers + [Worker(true, false, Ready(true))], q.workers);
    WokenSize(p.workers, q.workers);
    assert p.workers + [] == p.workers;
  }

  lemma WokenSize<J>(ws: seq<Worker<J>>, us: seq<Worker<J>>)
    ensures OneWoken(ws, us) ==> |us| == |ws|
  {
  }
}
