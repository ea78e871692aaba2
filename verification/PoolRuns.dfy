/** Whole runs of the thread pool: when a job waits for a thread in vain, and what becomes of
    the busy counter. */
module PoolRuns {
  import opened ThreadPool

  // ----- prefixes of runs -----

  lemma {:induction false} RunPrefix<J>(p: Pool<J>, steps: seq<Step<J>>, k: nat)
    requires IsRun(p, steps) && k <= |steps|
    ensures IsRun(p, steps[..k]) && IsRun(After(p, steps[..k]), steps[k..])
    ensures After(p, steps) == After(After(p, steps[..k]), steps[k..])
    decreases k
  {
    if k > 0 {
      RunPrefix(Next(p, steps[0]), steps[1..], k - 1);
      assert steps[..k][1..] == steps[1..][..k - 1] && steps[1..][k - 1..] == steps[k..];
    } else {
      assert steps[0..] == steps;
    }
  }

  lemma {:induction false} RunConcat<J>(p: Pool<J>, a: seq<Step<J>>, b: seq<Step<J>>)
    requires IsRun(p, a) && IsRun(After(p, a), b)
    ensures IsRun(p, a + b) && After(p, a + b) == After(After(p, a), b)
    decreases |a|
  {
    hide Enabled, Next;
    if a == [] {
      assert a + b == b;
    } else {
      assert (a + b)[1..] == a[1..] + b;
      RunConcat(Next(p, a[0]), a[1..], b);
    }
  }

  lemma LastStep<J>(p: Pool<J>, steps: seq<Step<J>>)
    requires steps != [] && IsRun(p, steps)
    ensures var n := |steps| - 1;
      && IsRun(p, steps[..n]) && Enabled(After(p, steps[..n]), steps[n])
      && After(p, steps) == Next(After(p, steps[..n]), steps[n])
  {
    var n := |steps| - 1;
    RunPrefix(p, steps, n);
    assert steps[n..][1..] == [];
  }

  lemma RunFrom<J>(threadCount: nat, maxGrow: nat, steps: seq<Step<J>>)
    requires IsRun(New(threadCount, maxGrow), steps)
    ensures Inv(After(New(threadCount, maxGrow), steps))
  {
    NewInv<J>(threadCount, maxGrow);
    RunKeeps(New(threadCount, maxGrow), steps);
  }

  // ----- lost signals -----

  // A thread that will come to look at the queue again without being signalled.
  predicate Attends<J>(w: Worker<J>) {
    w.pc.Ready? || w.pc.Working? || w.pc.Checking? || w.pc == Waiting(true)
  }

  // There are jobs, and every thread is gone, on its way out or asleep without a signal.
  predicate Unattended<J>(p: Pool<J>) {
    p.run && p.queue != [] && forall t :: 0 <= t < |p.workers| ==> !Attends(p.workers[t])
  }

  // popJob waits without looking at the queue: the last thread that attends to it goes to
  // sleep although there is a job, whose signal was given before anyone waited for it.
  predicate FallsAsleep<J>(p: Pool<J>, s: Step<J>) {
    && s.WorkerEnter? && Enabled(p, s) && p.run && p.queue != [] && !p.workers[s.t].pc.skipWait
    && forall u :: 0 <= u < |p.workers| && u != s.t ==> !Attends(p.workers[u])
  }

  predicate Quiet<J>(s: Step<J>) {
    s.MainShrink? || s.WorkerLeave?
  }

  // While the pool runs, static threads are never on their way out.
  predicate Staffed<J>(p: Pool<J>) {
    && (p.run ==> forall t :: 0 <= t < |p.workers| && !p.workers[t].isDynamic ==>
          !p.workers[t].pc.Exited? && !p.workers[t].pc.Leaving?)
    && (forall t :: 0 <= t < |p.workers| && t < p.threadCount ==> !p.workers[t].isDynamic)
    && p.threadCount >= 1 && (|p.workers| < p.threadCount ==> p.queue == [])
  }

  ghost predicate Signalled<J>(w: Worker<J>, v: Worker<J>) {
    v == w || (w.pc == Waiting(false) && v == w.(pc := Waiting(true)))
  }

  lemma SignalFacts<J>(p: Pool<J>, pick: nat)
    ensures var q := Signal(p, pick);
      && (forall t :: 0 <= t < |p.workers| ==> Signalled(p.workers[t], q.workers[t]))
      && ((exists t :: 0 <= t < |p.workers| && Sleeps(p.workers, t)) ==>
            exists t :: 0 <= t < |q.workers| && Attends(q.workers[t]))
  {
    var u := Chosen(p.workers, pick);
    if u < |p.workers| {
      assert Attends(Signal(p, pick).workers[u]);
    }
  }

  // ----- static threads stay -----

  lemma StaffedSignal<J>(p: Pool<J>, pick: nat)
    requires Staffed(p)
    ensures Staffed(Signal(p, pick))
  {
    hide Signal;
    SignalFacts(p, pick);
  }

  lemma StaffedPush<J>(p: Pool<J>, job: J)
    requires Staffed(p) && |p.workers| >= p.threadCount
    ensures Staffed(Push(p, job))
  {
  }

  lemma StaffedPop<J>(p: Pool<J>, t: nat, wasWaiting: bool)
    requires Staffed(p) && t < |p.workers| && (p.workers[t].pc.Waiting? || p.workers[t].pc.Ready?)
    ensures Staffed(Pop(p, t, wasWaiting))
  {
  }

  lemma StaffedStep<J>(p: Pool<J>, s: Step<J>)
    requires Staffed(p) && Enabled(p, s)
    ensures Staffed(Next(p, s))
  {
    hide Signal, Pop, Push;
    if s.MainAdd? {
      StaffedPush(p, s.job);
      StaffedSignal(Push(p, s.job), s.pick);
    } else if s.WorkerWake? || s.WorkerSpurious? || (s.WorkerEnter? && p.run && p.workers[s.t].pc.skipWait) {
      var q := Pop(p, s.t, !s.WorkerEnter?);
      StaffedPop(p, s.t, !s.WorkerEnter?);
      StaffedSignal(q, s.pick);
    } else {
      hide Sleeps;
    }
  }

  // ----- each step -----

  // A thread that is handed a job attends to the queue.
  lemma TakeAttends<J>(p: Pool<J>, t: nat, wasWaiting: bool, pick: nat)
    requires t < |p.workers| && p.queue != []
    ensures !Unattended(Take(p, t, wasWaiting, pick))
  {
    hide Signal;
    var q := Pop(p, t, wasWaiting);
    SignalFacts(q, pick);
    assert q.workers[t].pc.Working?;
    assert Attends(Take(p, t, wasWaiting, pick).workers[t]);
  }

  // Whoever adds a job finds a static thread that attends to it or can be signalled.
  lemma AddAttends<J>(p: Pool<J>, job: J, pick: nat)
    requires Staffed(p) && p.run && |p.workers| >= p.threadCount
    ensures !Unattended(Add(p, job, pick))
  {
    hide Signal;
    var q := Push(p, job);
    StaffedPush(p, job);
    SignalFacts(q, pick);
    if Sleeps(q.workers, 0) {
      assert exists t :: 0 <= t < |q.workers| && Sleeps(q.workers, t);
    } else {
      assert Attends(q.workers[0]);
      assert Attends(Signal(q, pick).workers[0]);
    }
  }

  /** One step leaves a job without anyone attending to it exactly if nobody did before and
      only threads on their way out have moved, or the last attending thread has gone to
      sleep in popJob on a queue that is not empty. */
  lemma UnattendedStep<J>(p: Pool<J>, s: Step<J>)
    requires Staffed(p) && Enabled(p, s)
    ensures Unattended(Next(p, s)) <==> (Unattended(p) && Quiet(s)) || FallsAsleep(p, s)
  {
    hide Take, Add, Signal;
    if s.MainAdd? {
      AddAttends(p, s.job, s.pick);
    } else if s.WorkerWake? || s.WorkerSpurious? || (s.WorkerEnter? && p.run && p.workers[s.t].pc.skipWait) {
      if p.queue != [] {
        TakeAttends(p, s.t, !s.WorkerEnter?, s.pick);
      } else {
        TakeEmpty(p, s.t, !s.WorkerEnter?, s.pick);
      }
    } else if ByWorker(s) {
      OneMoves(p, s);
    } else {
      MainMoves(p, s);
    }
  }

  lemma TakeEmpty<J>(p: Pool<J>, t: nat, wasWaiting: bool, pick: nat)
    requires t < |p.workers| && p.queue == []
    ensures Take(p, t, wasWaiting, pick).queue == []
  {
  }

  lemma MainMoves<J>(p: Pool<J>, s: Step<J>)
    requires Staffed(p) && Enabled(p, s) && !ByWorker(s) && !s.MainAdd?
    ensures Unattended(Next(p, s)) <==> Unattended(p) && Quiet(s)
  {
    if s.MainSpawn? {
      assert Attends(Next(p, s).workers[|p.workers|]);
    }
  }

  // Steps of one thread that neither pop nor signal.
  lemma OneMoves<J>(p: Pool<J>, s: Step<J>)
    requires Enabled(p, s) && ByWorker(s) && !s.WorkerWake? && !s.WorkerSpurious?
    requires s.WorkerEnter? && p.run ==> !p.workers[s.t].pc.skipWait
    ensures Unattended(Next(p, s)) <==> (Unattended(p) && Quiet(s)) || FallsAsleep(p, s)
  {
    hide Take, Signal;
    var q := Next(p, s);
    assert Attends(p.workers[s.t]) <==> !s.WorkerLeave?;
    assert forall u :: 0 <= u < |p.workers| && u != s.t ==> q.workers[u] == p.workers[u];
    if Unattended(q) {
      assert !Attends(q.workers[s.t]);
    }
  }

  // ----- whole runs -----

  ghost predicate StrandedAt<J>(p: Pool<J>, steps: seq<Step<J>>, k: nat) {
    && k < |steps| && IsRun(p, steps[..k]) && FallsAsleep(After(p, steps[..k]), steps[k])
    && forall j :: k < j < |steps| ==> Quiet(steps[j])
  }

  lemma {:induction false} StaffedRun<J>(p: Pool<J>, steps: seq<Step<J>>)
    requires Staffed(p) && IsRun(p, steps)
    ensures Staffed(After(p, steps))
    decreases |steps|
  {
    hide Staffed, Enabled, Next;
    if steps != [] {
      StaffedStep(p, steps[0]);
      StaffedRun(Next(p, steps[0]), steps[1..]);
    }
  }

  lemma {:induction false} StrandedIff<J>(p: Pool<J>, steps: seq<Step<J>>)
    requires Staffed(p) && !Unattended(p) && IsRun(p, steps)
    ensures Unattended(After(p, steps)) <==> exists k :: StrandedAt(p, steps, k)
    decreases |steps|
  {
    hide Staffed, Unattended, FallsAsleep, Quiet, Enabled, Next, IsRun, After;
    if steps == [] {
      NothingDone(p);
    } else {
      var n := |steps| - 1;
      var front, s := steps[..n], steps[n];
      LastStep(p, steps);
      StaffedRun(p, front);
      StrandedIff(p, front);
      UnattendedStep(After(p, front), s);
      forall k: nat | k < n
        ensures StrandedAt(p, steps, k) <==> StrandedAt(p, front, k) && Quiet(s)
      {
        assert front[..k] == steps[..k] && (forall j :: 0 <= j < n ==> front[j] == steps[j]);
      }
      if FallsAsleep(After(p, front), s) {
        assert StrandedAt(p, steps, n);
      } else if Unattended(After(p, front)) && Quiet(s) {
        var k :| StrandedAt(p, front, k);
        assert StrandedAt(p, steps, k);
      }
    }
  }

  lemma NothingDone<J>(p: Pool<J>)
    ensures IsRun(p, []) && After(p, []) == p
  {
  }

  /** In any run from the start, a job is left with nobody attending to it exactly if at some
      step the last attending thread went to sleep in popJob on a queue that was not empty,
      and since then only threads on their way out have moved. In all other runs, as long as
      there are jobs and the pool runs, some thread is awake or has been signalled. */
  lemma UnattendedIff<J>(threadCount: nat, maxGrow: nat, steps: seq<Step<J>>)
    requires IsRun(New(threadCount, maxGrow), steps)
    ensures Unattended(After(New(threadCount, maxGrow), steps)) <==>
      exists k :: StrandedAt(New(threadCount, maxGrow), steps, k)
  {
    StrandedIff(New(threadCount, maxGrow), steps);
  }

  /** The signal of a job that is added while the only thread is between its look at the queue
      and its wait is lost: the job stays queued, and the thread has no step to take. */
  lemma SignalLost() returns (steps: seq<Step<int>>)
    ensures IsRun(New(1, 1), steps)
    ensures var p := After(New(1, 1), steps);
      Unattended(p) && p.queue == [7] && |p.workers| == 1 && !exists s :: Owed(p, 0, s)
  {
    steps := LoneSleeps();
    var begun := LoneStarts();
    RunConcat(New(1, 1), begun, steps);
    steps := begun + steps;
    StuckIff(After(New(1, 1), steps), 0);
  }

  lemma LoneStarts() returns (steps: seq<Step<int>>)
    ensures IsRun(New(1, 1), steps) && After(New(1, 1), steps) == Lone([], Checking)
  {
    var p := New<int>(1, 1);
    var p1 := p.(run := true);
    var p2, p3 := Lone([], Ready(true)), Lone([], Checking);
    steps := Before(WorkerEnter(0, 0), p2, p3, []);
    steps := Before(MainSpawn, p1, p2, steps);
    steps := Before(MainStart, p, p1, steps);
  }

  lemma LoneSleeps() returns (steps: seq<Step<int>>)
    ensures IsRun(Lone([], Checking), steps) && After(Lone([], Checking), steps) == Lone([7], Waiting(false))
  {
    var p, p1 := Lone([], Checking), Lone([], Ready(false));
    var p2, p3 := Lone([7], Ready(false)), Lone([7], Waiting(false));
    steps := Before(WorkerEnter(0, 0), p2, p3, []);
    steps := Before(MainAdd(7, 0), p1, p2, steps);
    steps := Before(WorkerCheck(0), p, p1, steps);
  }

  // One static thread and what is queued for it.
  function Lone(queue: seq<int>, pc: Pc<int>): Pool<int> {
    Pool(1, 1, true, queue, 0, 1, [0], [], [Worker(false, false, pc)], queue, [], [], [])
  }

  lemma Before(s: Step<int>, p: Pool<int>, q: Pool<int>, steps: seq<Step<int>>) returns (all: seq<Step<int>>)
    requires Enabled(p, s) && Next(p, s) == q && IsRun(q, steps)
    ensures IsRun(p, all) && After(p, all) == After(q, steps)
  {
    all := [s] + steps;
    assert all[1..] == steps;
  }

  // ----- the busy counter of threads that are gone -----

  // One static thread, at most two threads, as the example goes on.
  function Example(queue: seq<int>, busy: int, popped: nat, done: seq<int>, a: Pc<int>, b: Worker<int>): Pool<int>
    requires popped + |queue| <= 4
  {
    var jobs := [1, 2, 3, 4];
    Pool(1, 2, true, queue, busy, 2, [0, 1], [], [Worker(false, false, a), b],
      jobs[..popped + |queue|], jobs[..popped], done, [])
  }

  lemma ExampleStarts() returns (steps: seq<Step<int>>)
    ensures IsRun(New(1, 2), steps)
    ensures After(New(1, 2), steps) == Example([1, 2], 0, 0, [], Ready(true), Worker(true, false, Ready(true)))
  {
    var p := New<int>(1, 2);
    var p1 := p.(run := true);
    var p2 := p1.(createdThreads := 1, threads := [0], workers := [Worker(false, false, Ready(true))]);
    var p3 := p2.(queue := [1], added := [1]);
    var p4 := Example([1, 2], 0, 0, [], Ready(true), Worker(true, false, Ready(true)));
    steps := [];
    steps := Before(MainAdd(2, 0), p3, p4, steps);
    steps := Before(MainAdd(1, 0), p2, p3, steps);
    steps := Before(MainSpawn, p1, p2, steps);
    steps := Before(MainStart, p, p1, steps);
  }

  lemma ExamplePops() returns (steps: seq<Step<int>>)
    ensures var p := Example([1, 2], 0, 0, [], Ready(true), Worker(true, false, Ready(true)));
      IsRun(p, steps) && After(p, steps) == Example([], 0, 2, [2], Working(1), Worker(true, false, Checking))
  {
    var p := Example([1, 2], 0, 0, [], Ready(true), Worker(true, false, Ready(true)));
    var p1 := Example([2], 0, 1, [], Working(1), Worker(true, false, Ready(true)));
    steps := ExamplePopsLast();
    ExamplePopsFirst();
    steps := Before(WorkerEnter(0, 0), p, p1, steps);
  }

  lemma ExamplePopsFirst()
    ensures Enter(Example([1, 2], 0, 0, [], Ready(true), Worker(true, false, Ready(true))), 0, 0)
         == Example([2], 0, 1, [], Working(1), Worker(true, false, Ready(true)))
  {
  }

  lemma ExamplePopsLast() returns (steps: seq<Step<int>>)
    ensures var p := Example([2], 0, 1, [], Working(1), Worker(true, false, Ready(true)));
      IsRun(p, steps) && After(p, steps) == Example([], 0, 2, [2], Working(1), Worker(true, false, Checking))
  {
    var p := Example([2], 0, 1, [], Working(1), Worker(true, false, Ready(true)));
    var p1 := Example([], 0, 2, [], Working(1), Worker(true, false, Working(2)));
    var p2 := Example([], 0, 2, [2], Working(1), Worker(true, false, Checking));
    steps := Before(WorkerFinish(1), p1, p2, []);
    steps := Before(WorkerEnter(1, 0), p, p1, steps);
  }

  lemma ExampleSleeps() returns (steps: seq<Step<int>>)
    ensures var p := Example([], 0, 2, [2], Working(1), Worker(true, false, Checking));
      IsRun(p, steps) && After(p, steps) == Example([3], 0, 2, [2], Working(1), Worker(true, false, Waiting(true)))
  {
    var p := Example([], 0, 2, [2], Working(1), Worker(true, false, Checking));
    var p1 := Example([], 0, 2, [2], Working(1), Worker(true, false, Ready(false)));
    var p2 := Example([], 0, 2, [2], Working(1), Worker(true, false, Waiting(false)));
    var p3 := Example([3], 0, 2, [2], Working(1), Worker(true, false, Waiting(true)));
    steps := [];
    steps := Before(MainAdd(3, 1), p2, p3, steps);
    steps := Before(WorkerEnter(1, 0), p1, p2, steps);
    steps := Before(WorkerCheck(1), p, p1, steps);
  }

  lemma ExampleWakes() returns (steps: seq<Step<int>>)
    ensures var p := Example([3], 0, 2, [2], Working(1), Worker(true, false, Waiting(true)));
      IsRun(p, steps) && After(p, steps) == Example([4], 1, 3, [2], Working(1), Worker(true, true, Working(3)))
  {
    var p := Example([3], 0, 2, [2], Working(1), Worker(true, false, Waiting(true)));
    var p1 := Example([], 1, 3, [2], Working(1), Worker(true, true, Working(3)));
    var p2 := Example([4], 1, 3, [2], Working(1), Worker(true, true, Working(3)));
    steps := [];
    steps := Before(MainAdd(4, 0), p1, p2, steps);
    steps := Before(WorkerWake(1, 0), p, p1, steps);
  }

  lemma ExampleWorks() returns (steps: seq<Step<int>>)
    ensures var p := Example([4], 1, 3, [2], Working(1), Worker(true, true, Working(3)));
      IsRun(p, steps) && After(p, steps) == Example([4], 1, 3, [2, 3], Working(1), Worker(true, true, Ready(true)))
  {
    var p := Example([4], 1, 3, [2], Working(1), Worker(true, true, Working(3)));
    var p1 := Example([4], 1, 3, [2, 3], Working(1), Worker(true, true, Checking));
    var p2 := Example([4], 1, 3, [2, 3], Working(1), Worker(true, true, Ready(true)));
    steps := [];
    steps := Before(WorkerCheck(1), p1, p2, steps);
    steps := Before(WorkerFinish(1), p, p1, steps);
  }

  lemma ExampleLosesJob() returns (steps: seq<Step<int>>)
    ensures var p := Example([4], 1, 3, [2, 3], Working(1), Worker(true, true, Ready(true)));
      IsRun(p, steps) && After(p, steps) == Example([], 1, 4, [2, 3, 1], Working(4), Worker(true, true, Ready(true)))
  {
    var p := Example([4], 1, 3, [2, 3], Working(1), Worker(true, true, Ready(true)));
    var p1 := Example([4], 1, 3, [2, 3, 1], Checking, Worker(true, true, Ready(true)));
    var p2 := Example([4], 1, 3, [2, 3, 1], Ready(true), Worker(true, true, Ready(true)));
    var p3 := Example([], 1, 4, [2, 3, 1], Working(4), Worker(true, true, Ready(true)));
    steps := [];
    steps := Before(WorkerEnter(0, 0), p2, p3, steps);
    steps := Before(WorkerCheck(0), p1, p2, steps);
    steps := Before(WorkerFinish(0), p, p1, steps);
  }

  lemma ExampleLeaves() returns (steps: seq<Step<int>>)
    ensures var p := Example([], 1, 4, [2, 3, 1], Working(4), Worker(true, true, Ready(true)));
      IsRun(p, steps) && After(p, steps) ==
        Example([], 1, 4, [2, 3, 1], Working(4), Worker(true, true, Exited)).(threads := [0], createdThreads := 1)
  {
    var p := Example([], 1, 4, [2, 3, 1], Working(4), Worker(true, true, Ready(true)));
    var p1 := Example([], 1, 4, [2, 3, 1], Working(4), Worker(true, true, Leaving));
    var p2 := Example([], 1, 4, [2, 3, 1], Working(4), Worker(true, true, Exited)).(finished := [1]);
    var p3 := p2.(finished := [], threads := [0], createdThreads := 1);
    steps := [];
    assert [0, 1][1..] == [1] && IndexOf([1], 1) == 0 && IndexOf([0, 1], 1) == 1;
    steps := Before(MainShrink, p2, p3, steps);
    steps := Before(WorkerLeave(1), p1, p2, steps);
    steps := Before(WorkerEnter(1, 0), p, p1, steps);
  }

  /** The busy counter can stay too high for good: the second thread, counted busy, is sent
      to look for a job without waiting, finds the queue emptied by the first, and ends
      without being taken off the counter. The only thread left is not marked busy. */
  lemma BusyCounterLeaks() returns (steps: seq<Step<int>>)
    ensures IsRun(New(1, 2), steps)
    ensures var p := After(New(1, 2), steps);
      p.busyThreads == 1 && p.threads == [0] && |p.workers| == 2 && !p.workers[0].isBusy
  {
    steps := ExampleStarts();
    var more := ExamplePops();
    RunConcat(New(1, 2), steps, more);
    steps := steps + more;
    more := ExampleSleeps();
    RunConcat(New(1, 2), steps, more);
    steps := steps + more;
    more := ExampleWakes();
    RunConcat(New(1, 2), steps, more);
    steps := steps + more;
    more := ExampleWorks();
    RunConcat(New(1, 2), steps, more);
    steps := steps + more;
    more := ExampleLosesJob();
    RunConcat(New(1, 2), steps, more);
    steps := steps + more;
    more := ExampleLeaves();
    RunConcat(New(1, 2), steps, more);
    steps := steps + more;
  }

  // A thread on its way out or gone that is still marked busy.
  predicate LostBusy<J>(w: Worker<J>) {
    w.isBusy && (w.pc.Leaving? || w.pc.Exited?)
  }

  predicate NobodyLost<J>(p: Pool<J>) {
    forall t :: 0 <= t < |p.workers| ==> !LostBusy(p.workers[t])
  }

  // The threads marked busy that are not on their way out.
  function BusyAlive<J>(ws: seq<Worker<J>>): nat {
    if ws == [] then 0
    else
      var w := ws[|ws| - 1];
      BusyAlive(ws[..|ws| - 1]) + if w.isBusy && !LostBusy(w) then 1 else 0
  }

  lemma {:induction false} AliveIff<J>(ws: seq<Worker<J>>)
    ensures BusyAlive(ws) <= Busy(ws)
    ensures BusyAlive(ws) == Busy(ws) <==> forall t :: 0 <= t < |ws| ==> !LostBusy(ws[t])
  {
    if ws != [] {
      var n := |ws| - 1;
      AliveIff(ws[..n]);
      assert forall t :: 0 <= t < n ==> ws[..n][t] == ws[t];
    }
  }

  // A dynamic thread marked busy is sent to the queue without waiting and finds it emptied.
  predicate LeavesBusy<J>(p: Pool<J>, s: Step<J>) {
    && s.WorkerEnter? && Enabled(p, s) && p.run && p.queue == []
    && var w := p.workers[s.t]; w.isDynamic && w.isBusy && w.pc.skipWait
  }

  lemma SignalKeepsLost<J>(p: Pool<J>, pick: nat)
    ensures NobodyLost(Signal(p, pick)) <==> NobodyLost(p)
  {
    hide Signal;
    SignalFacts(p, pick);
    var q := Signal(p, pick);
    assert forall t :: 0 <= t < |p.workers| ==> Signalled(p.workers[t], q.workers[t]);
    assert forall t :: 0 <= t < |p.workers| ==> (LostBusy(q.workers[t]) <==> LostBusy(p.workers[t]));
  }

  // One thread changes, and it is lost afterwards exactly if it was lost or is lost now.
  lemma OneLost<J>(p: Pool<J>, q: Pool<J>, t: nat, lost: bool)
    requires t < |p.workers| == |q.workers|
    requires forall u :: 0 <= u < |p.workers| && u != t ==> q.workers[u] == p.workers[u]
    requires LostBusy(q.workers[t]) <==> LostBusy(p.workers[t]) || lost
    ensures NobodyLost(q) <==> NobodyLost(p) && !lost
  {
    if NobodyLost(p) && !lost {
      assert forall u :: 0 <= u < |q.workers| ==> !LostBusy(q.workers[u]);
    } else if lost || LostBusy(p.workers[t]) {
      assert LostBusy(q.workers[t]);
    } else {
      var u :| 0 <= u < |p.workers| && LostBusy(p.workers[u]);
      assert LostBusy(q.workers[u]);
    }
  }

  lemma PopLost<J>(p: Pool<J>, t: nat, wasWaiting: bool, pick: nat)
    requires t < |p.workers| && (p.workers[t].pc.Waiting? || p.workers[t].pc.Ready?)
    ensures NobodyLost(Take(p, t, wasWaiting, pick)) <==>
      NobodyLost(p) && !(p.queue == [] && p.workers[t].isDynamic && p.workers[t].isBusy)
  {
    hide Signal;
    var q := Pop(p, t, wasWaiting);
    OneLost(p, q, t, p.queue == [] && p.workers[t].isDynamic && p.workers[t].isBusy);
    SignalKeepsLost(q, pick);
  }

  lemma LostStep<J>(p: Pool<J>, s: Step<J>)
    requires Counted(p) && p.run && Enabled(p, s)
    ensures NobodyLost(Next(p, s)) <==> NobodyLost(p) && !LeavesBusy(p, s)
  {
    hide Take, Signal, NobodyLost, Push;
    if s.MainAdd? {
      PushLost(p, s.job);
      SignalKeepsLost(Push(p, s.job), s.pick);
    } else if s.WorkerWake? || s.WorkerSpurious? || (s.WorkerEnter? && p.workers[s.t].pc.skipWait) {
      PopLost(p, s.t, !s.WorkerEnter?, s.pick);
    } else if ByWorker(s) {
      OneLost(p, Next(p, s), s.t, false);
    } else {
      MainLost(p, s);
    }
  }

  lemma PushLost<J>(p: Pool<J>, job: J)
    ensures NobodyLost(Push(p, job)) <==> NobodyLost(p)
  {
    var q := Push(p, job);
    assert forall t :: 0 <= t < |p.workers| ==> q.workers[t] == p.workers[t];
  }

  lemma MainLost<J>(p: Pool<J>, s: Step<J>)
    requires p.run && Enabled(p, s) && !ByWorker(s) && !s.MainAdd?
    ensures NobodyLost(Next(p, s)) <==> NobodyLost(p)
  {
    var q := Next(p, s);
    assert forall t :: 0 <= t < |p.workers| ==> (LostBusy(q.workers[t]) <==> LostBusy(p.workers[t]));
  }

  ghost predicate LeavesBusyAt<J>(p: Pool<J>, steps: seq<Step<J>>, k: nat) {
    k < |steps| && IsRun(p, steps[..k]) && LeavesBusy(After(p, steps[..k]), steps[k])
  }

  // The pool is running, or has not been started.
  predicate NotStopped<J>(p: Pool<J>) {
    p.run || p.workers == []
  }

  lemma NotStoppedBefore<J>(p: Pool<J>, s: Step<J>)
    requires Enabled(p, s) && NotStopped(Next(p, s))
    ensures NotStopped(p) && (!p.run ==> Next(p, s).workers == [] && p.workers == [])
  {
  }

  lemma {:induction false} LostIff<J>(p: Pool<J>, steps: seq<Step<J>>)
    requires Inv(p) && NobodyLost(p) && IsRun(p, steps) && NotStopped(After(p, steps))
    ensures NobodyLost(After(p, steps)) <==> !exists k :: LeavesBusyAt(p, steps, k)
    decreases |steps|
  {
    hide NobodyLost, LeavesBusy, NotStopped, Enabled, Next, IsRun, After, Inv;
    if steps == [] {
      NothingDone(p);
    } else {
      var n := |steps| - 1;
      var front, s := steps[..n], steps[n];
      LastStep(p, steps);
      var q := After(p, front);
      NotStoppedBefore(q, s);
      LostIff(p, front);
      forall k: nat | k < n
        ensures LeavesBusyAt(p, steps, k) <==> LeavesBusyAt(p, front, k)
      {
        assert front[..k] == steps[..k];
      }
      RunKeeps(p, front);
      LastLost(q, s);
      if LeavesBusy(q, s) {
        assert LeavesBusyAt(p, steps, n);
      }
    }
  }

  lemma LastLost<J>(p: Pool<J>, s: Step<J>)
    requires Inv(p) && Enabled(p, s) && (!p.run ==> Next(p, s).workers == [] && p.workers == [])
    ensures NobodyLost(Next(p, s)) <==> NobodyLost(p) && !LeavesBusy(p, s)
  {
    if p.run {
      LostStep(p, s);
    }
  }

  /** As long as the pool has not been stopped, the busy counter is the number of threads
      marked busy that are not on their way out if and only if at no step a dynamic thread
      marked busy was sent to the queue without waiting and found it emptied. */
  lemma BusyExactIff<J>(threadCount: nat, maxGrow: nat, steps: seq<Step<J>>)
    requires IsRun(New(threadCount, maxGrow), steps) && After(New(threadCount, maxGrow), steps).run
    ensures var p := After(New(threadCount, maxGrow), steps);
      p.busyThreads == BusyAlive(p.workers) <==> !exists k :: LeavesBusyAt(New(threadCount, maxGrow), steps, k)
  {
    RunFrom(threadCount, maxGrow, steps);
    NewInv<J>(threadCount, maxGrow);
    LostIff(New(threadCount, maxGrow), steps);
    AliveIff(After(New(threadCount, maxGrow), steps).workers);
  }
}
