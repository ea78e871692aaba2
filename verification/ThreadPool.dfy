/** The job pool: worker threads popping jobs that one main thread adds. Each function below
    is one section of code that runs under the queue lock (or touches only one thread). */
module ThreadPool {
  // Where a worker is: about to call popJob, waiting in it (and perhaps signalled already),
  // processing, about to look whether to go on, about to report itself finished, gone.
  datatype Pc<J> =
    Ready(skipWait: bool) | Waiting(signalled: bool) | Working(job: J) | Checking | Leaving | Exited

  datatype Worker<J> = Worker(isDynamic: bool, isBusy: bool, pc: Pc<J>)

  /** Threads are numbered in the order of their creation. added, popped and done are the
      histories of all jobs,
      dropped those cleared from the queue at the end; the rest are the fields of the class. */
  datatype Pool<J> = Pool(
    threadCount: nat, maxGrow: nat,
    run: bool, queue: seq<J>, busyThreads: int, createdThreads: nat,
    threads: seq<nat>, finished: seq<nat>, workers: seq<Worker<J>>,
    added: seq<J>, popped: seq<J>, done: seq<J>, dropped: seq<J>)

  function New<J>(threadCount: nat, maxGrow: nat): Pool<J> {
    var count := if threadCount < 1 then 1 else threadCount;
    Pool(count, if maxGrow < count then count else maxGrow, false, [], 0, 0, [], [], [], [], [], [], [])
  }

  // pthread_create for a worker.
  function Spawn<J>(p: Pool<J>, isDynamic: bool): Pool<J> {
    p.(threads := p.threads + [|p.workers|], createdThreads := p.createdThreads + 1,
       workers := p.workers + [Worker(isDynamic, false, Ready(true))])
  }

  function Grow<J>(p: Pool<J>): Pool<J> {
    if p.createdThreads >= p.maxGrow then p else Spawn(p, true)
  }

  function At<J>(p: Pool<J>, t: nat, w: Worker<J>): Pool<J>
    requires t < |p.workers|
  {
    p.(workers := p.workers[t := w])
  }

  // ----- the condition variable -----

  predicate Sleeps<J>(ws: seq<Worker<J>>, t: nat) {
    t < |ws| && ws[t].pc == Waiting(false)
  }

  function FirstSleeper<J>(ws: seq<Worker<J>>): (t: nat)
    ensures t <= |ws| && (t < |ws| ==> Sleeps(ws, t))
    ensures t == |ws| ==> forall u: nat :: !Sleeps(ws, u)
  {
    if ws == [] || Sleeps(ws, 0) then 0
    else
      var t := 1 + FirstSleeper(ws[1..]);
      assert forall u: nat :: u > 0 && Sleeps(ws, u) ==> Sleeps(ws[1..], u - 1);
      t
  }

  // The thread that a signal wakes: the one that the system picks, if that one sleeps; some
  // sleeping thread in any case; none if there is none, and then the signal is lost.
  function Chosen<J>(ws: seq<Worker<J>>, pick: nat): nat {
    if Sleeps(ws, pick) then pick else FirstSleeper(ws)
  }

  function Signal<J>(p: Pool<J>, pick: nat): (q: Pool<J>)
    ensures q == p.(workers := q.workers) && |q.workers| == |p.workers|
  {
    var u := Chosen(p.workers, pick);
    if u < |p.workers| then At(p, u, p.workers[u].(pc := Waiting(true))) else p
  }

  function Rouse<J>(w: Worker<J>): Worker<J> {
    if w.pc.Waiting? then w.(pc := Waiting(true)) else w
  }

  function Broadcast<J>(ws: seq<Worker<J>>): seq<Worker<J>> {
    seq(|ws|, i requires 0 <= i < |ws| => Rouse(ws[i]))
  }

  // ----- adding and taking jobs -----

  function Push<J>(p: Pool<J>, job: J): Pool<J> {
    var q := p.(queue := p.queue + [job], added := p.added + [job]);
    if (p.busyThreads >= p.createdThreads || |q.queue| > p.createdThreads) && p.createdThreads < p.maxGrow
    then Grow(q) else q
  }

  function Add<J>(p: Pool<J>, job: J, pick: nat): Pool<J> {
    Signal(Push(p, job), pick)
  }

  function IndexOf(s: seq<nat>, x: nat): (i: nat)
    ensures i <= |s| && (i < |s| ==> s[i] == x) && (i == |s| ==> x !in s)
  {
    if s == [] || s[0] == x then 0 else 1 + IndexOf(s[1..], x)
  }

  function Without(s: seq<nat>, x: nat): seq<nat> {
    var i := IndexOf(s, x);
    if i < |s| then s[..i] + s[i + 1..] else s
  }

  // One round of shrink: join the first finished thread and forget it.
  function ShrinkOne<J>(p: Pool<J>): Pool<J>
    requires p.finished != [] && p.createdThreads > 0
  {
    p.(threads := Without(p.threads, p.finished[0]), finished := p.finished[1..],
       createdThreads := p.createdThreads - 1)
  }

  // The end of popJob: take a job if there is one. wasWaiting is !skipWait.
  function Pop<J>(p: Pool<J>, t: nat, wasWaiting: bool): Pool<J>
    requires t < |p.workers|
  {
    var w := p.workers[t];
    if p.queue == [] then
      At(p, t, w.(pc := if w.isDynamic then Leaving else Checking))
    else
      var marks := wasWaiting && !w.isBusy;
      At(p.(queue := p.queue[1..], popped := p.popped + [p.queue[0]],
            busyThreads := if marks then p.busyThreads + 1 else p.busyThreads),
         t, Worker(w.isDynamic, w.isBusy || marks, Working(p.queue[0])))
  }

  // The same, and a signal if there are more jobs.
  function Take<J>(p: Pool<J>, t: nat, wasWaiting: bool, pick: nat): Pool<J>
    requires t < |p.workers|
  {
    var q := Pop(p, t, wasWaiting);
    if q.queue != [] then Signal(q, pick) else q
  }

  // popJob up to the point where it sleeps, or all of it when it does not wait.
  function Enter<J>(p: Pool<J>, t: nat, pick: nat): Pool<J>
    requires t < |p.workers| && p.workers[t].pc.Ready?
  {
    var w := p.workers[t];
    if !p.run then At(p, t, w.(pc := if w.isDynamic then Leaving else Checking))
    else if w.pc.skipWait then Take(p, t, false, pick)
    else At(p.(busyThreads := if w.isBusy then p.busyThreads - 1 else p.busyThreads),
            t, Worker(w.isDynamic, false, Waiting(false)))
  }

  // The processor has returned.
  function Finish<J>(p: Pool<J>, t: nat): Pool<J>
    requires t < |p.workers| && p.workers[t].pc.Working?
  {
    At(p.(done := p.done + [p.workers[t].pc.job]), t, p.workers[t].(pc := Checking))
  }

  function Check<J>(p: Pool<J>, t: nat): Pool<J>
    requires t < |p.workers| && p.workers[t].pc.Checking?
  {
    var w := p.workers[t];
    At(p, t, w.(pc := if p.run then Ready(p.queue != []) else if w.isDynamic then Leaving else Exited))
  }

  function Leave<J>(p: Pool<J>, t: nat): Pool<J>
    requires t < |p.workers| && p.workers[t].pc.Leaving?
  {
    At(p.(finished := p.finished + [t]), t, p.workers[t].(pc := Exited))
  }

  // ----- steps -----

  // The number beside t or job is the thread that the system would signal.
  datatype Step<J> =
    | MainStart | MainSpawn | MainAdd(job: J, pick: nat) | MainShrink | MainStop | MainJoin | MainClear
    | WorkerEnter(t: nat, pick: nat) | WorkerWake(t: nat, pick: nat) | WorkerSpurious(t: nat, pick: nat)
    | WorkerFinish(t: nat) | WorkerCheck(t: nat) | WorkerLeave(t: nat)

  // The main thread starts threadCount threads before it adds anything, adds and shrinks
  // only before it stops, and joins and clears only afterwards. Join blocks until the
  // thread is gone. A waiting worker wakes when it has been signalled or, if it is dynamic,
  // when its time is out; POSIX also allows, but does not promise, spurious wake-ups.
  predicate Enabled<J>(p: Pool<J>, s: Step<J>) {
    match s
    case MainStart => !p.run && p.workers == []
    case MainSpawn => p.run && |p.workers| < p.threadCount
    case MainAdd(_, _) => p.run && |p.workers| >= p.threadCount
    case MainShrink => p.run && p.finished != [] && p.createdThreads > 0 && |p.workers| >= p.threadCount
      && p.finished[0] < |p.workers| && p.workers[p.finished[0]].pc.Exited?
    case MainStop => p.run && |p.workers| >= p.threadCount
    case MainJoin => !p.run && p.threads != [] && p.threads[|p.threads| - 1] < |p.workers|
      && p.workers[p.threads[|p.threads| - 1]].pc.Exited?
    case MainClear => !p.run && p.threads == [] && p.workers != []
    case WorkerEnter(t, _) => t < |p.workers| && p.workers[t].pc.Ready?
    case WorkerWake(t, _) => t < |p.workers| && p.workers[t].pc.Waiting? && (p.workers[t].pc.signalled || p.workers[t].isDynamic)
    case WorkerSpurious(t, _) => t < |p.workers| && p.workers[t].pc.Waiting?
    case WorkerFinish(t) => t < |p.workers| && p.workers[t].pc.Working?
    case WorkerCheck(t) => t < |p.workers| && p.workers[t].pc.Checking?
    case WorkerLeave(t) => t < |p.workers| && p.workers[t].pc.Leaving?
  }

  function Next<J>(p: Pool<J>, s: Step<J>): Pool<J>
    requires Enabled(p, s)
  {
    match s
    case MainStart => p.(run := true)
    case MainSpawn => Spawn(p, false)
    case MainAdd(job, pick) => Add(p, job, pick)
    case MainShrink => ShrinkOne(p)
    case MainStop => p.(run := false, workers := Broadcast(p.workers))
    case MainJoin => p.(threads := p.threads[..|p.threads| - 1])
    case MainClear => p.(queue := [], dropped := p.queue + p.dropped)
    case WorkerEnter(t, pick) => Enter(p, t, pick)
    case WorkerWake(t, pick) => Take(p, t, true, pick)
    case WorkerSpurious(t, pick) => Take(p, t, true, pick)
    case WorkerFinish(t) => Finish(p, t)
    case WorkerCheck(t) => Check(p, t)
    case WorkerLeave(t) => Leave(p, t)
  }

  predicate ByWorker<J>(s: Step<J>) {
    s.WorkerEnter? || s.WorkerWake? || s.WorkerSpurious? || s.WorkerFinish? || s.WorkerCheck? || s.WorkerLeave?
  }

  // ----- what every step keeps -----

  ghost function Hand<J>(w: Worker<J>): multiset<J> {
    if w.pc.Working? then multiset{w.pc.job} else multiset{}
  }

  ghost function InHand<J>(ws: seq<Worker<J>>): multiset<J> {
    if ws == [] then multiset{} else InHand(ws[..|ws| - 1]) + Hand(ws[|ws| - 1])
  }

  function Busy<J>(ws: seq<Worker<J>>): nat {
    if ws == [] then 0 else Busy(ws[..|ws| - 1]) + if ws[|ws| - 1].isBusy then 1 else 0
  }

  lemma {:induction false} SetBusy<J>(ws: seq<Worker<J>>, t: nat, w: Worker<J>)
    requires t < |ws|
    ensures Busy(ws[t := w]) + (if ws[t].isBusy then 1 else 0) == Busy(ws) + (if w.isBusy then 1 else 0)
  {
    var n := |ws| - 1;
    if t == n {
      assert ws[t := w][..n] == ws[..n];
    } else {
      SetBusy(ws[..n], t, w);
      assert ws[t := w][..n] == ws[..n][t := w];
    }
  }

  lemma AddToBoth<J>(x: multiset<J>, o: multiset<J>, y: multiset<J>, n: multiset<J>, c: multiset<J>)
    requires x + o == y + n
    ensures x + c + o == y + c + n
  {
    assert x + c + o == x + o + c;
    assert y + c + n == y + n + c;
  }

  lemma SwapLast<J>(a: multiset<J>, b: multiset<J>, c: multiset<J>)
    ensures a + b + c == a + c + b
  {
  }

  lemma {:induction false} SetHand<J>(ws: seq<Worker<J>>, t: nat, w: Worker<J>)
    requires t < |ws|
    ensures InHand(ws[t := w]) + Hand(ws[t]) == InHand(ws) + Hand(w)
  {
    hide Hand;
    var n := |ws| - 1;
    var front, last := ws[..n], Hand(ws[n]);
    if t == n {
      assert ws[t := w][..n] == front;
      SwapLast(InHand(front), Hand(w), last);
    } else {
      SetHand(front, t, w);
      LastHand(ws[t := w], front[t := w], ws[n]);
      AddToBoth(InHand(front[t := w]), Hand(ws[t]), InHand(front), Hand(w), last);
    }
  }

  lemma LastHand<J>(ws: seq<Worker<J>>, front: seq<Worker<J>>, last: Worker<J>)
    requires ws == front + [last]
    ensures InHand(ws) == InHand(front) + Hand(last)
  {
    assert ws[..|ws| - 1] == front;
  }

  // Jobs are popped in the order in which they were added, and each popped job is either
  // in one worker's hands or done.
  ghost predicate Conserved<J>(p: Pool<J>) {
    && p.added == p.popped + p.queue + p.dropped
    && multiset(p.popped) == multiset(p.done) + InHand(p.workers)
    && (p.run || p.workers == [] ==> p.dropped == [])
  }

  // The counter counts the threads, gone ones included, that were last seen busy; a
  // sleeping thread is never among them.
  predicate Counted<J>(p: Pool<J>) {
    && p.busyThreads == Busy(p.workers)
    && (forall t :: 0 <= t < |p.workers| && p.workers[t].pc.Waiting? ==> !p.workers[t].isBusy)
  }

  predicate Distinct(s: seq<nat>) {
    forall i, j :: 0 <= i < j < |s| ==> s[i] != s[j]
  }

  predicate Gone<J>(p: Pool<J>, t: nat) {
    t < |p.workers| && p.workers[t].pc.Exited?
  }

  // The thread list holds every thread that has not been joined; finished holds the dynamic
  // threads that are gone and not yet joined by shrink.
  predicate Listed<J>(p: Pool<J>) {
    && Distinct(p.threads) && Distinct(p.finished)
    && (forall t :: t in p.threads ==> t < |p.workers|)
    && (forall t :: t in p.finished ==> Gone(p, t))
    && (forall t: nat :: t < |p.workers| && t !in p.threads ==> Gone(p, t))
    && (p.run ==> forall t :: t in p.finished ==> t in p.threads)
    && (p.run ==> forall t :: t in p.threads && Gone(p, t) ==> t in p.finished)
  }

  predicate Bounded<J>(p: Pool<J>) {
    && 1 <= p.threadCount <= p.maxGrow && p.createdThreads <= p.maxGrow
    && (p.workers == [] ==> p.threads == [] && p.createdThreads == 0 && p.added == [] && p.popped == [])
    && (|p.workers| < p.threadCount ==> p.createdThreads == |p.workers|)
    && (p.run ==> p.createdThreads == |p.threads|)
  }

  // The broadcast of stop reaches everyone: later on nobody goes to sleep.
  predicate Roused<J>(p: Pool<J>) {
    !p.run ==> forall t :: 0 <= t < |p.workers| ==> !Sleeps(p.workers, t)
  }

  ghost predicate Inv<J>(p: Pool<J>) {
    Conserved(p) && Counted(p) && Listed(p) && Bounded(p) && Roused(p)
  }

  lemma NewInv<J>(threadCount: nat, maxGrow: nat)
    ensures Inv(New<J>(threadCount, maxGrow))
  {
  }

  lemma PoolBounds<J>(p: Pool<J>)
    requires Inv(p)
    ensures p.createdThreads <= p.maxGrow && p.threadCount <= p.maxGrow
  {
  }

  // ----- thread creation -----

  lemma {:induction false} SpawnKeeps<J>(p: Pool<J>, isDynamic: bool)
    requires Inv(p) && p.createdThreads < p.maxGrow && p.run
    requires |p.workers| < p.threadCount ==> !isDynamic
    ensures Inv(Spawn(p, isDynamic))
  {
    var q := Spawn(p, isDynamic);
    var n := |p.workers|;
    assert q.workers[..n] == p.workers;
    assert n !in p.threads;
    assert forall t :: t in q.threads <==> t in p.threads || t == n;
    assert forall t: nat :: Gone(q, t) <==> Gone(p, t);
  }

  lemma PushKeeps<J>(p: Pool<J>, job: J)
    requires Inv(p) && p.run && |p.workers| >= p.threadCount
    ensures Inv(Push(p, job))
  {
    hide InHand, Busy;
    var q := p.(queue := p.queue + [job], added := p.added + [job]);
    assert q.added == q.popped + q.queue + q.dropped;
    assert Listed(q) by {
      assert forall t: nat :: Gone(q, t) <==> Gone(p, t);
    }
    assert Inv(q);
    if Push(p, job) != q {
      SpawnKeeps(q, true);
    }
  }

  // A signal changes nothing but whether one waiting worker is signalled.
  lemma SignalKeeps<J>(p: Pool<J>, pick: nat)
    requires Inv(p)
    ensures Inv(Signal(p, pick)) && InHand(Signal(p, pick).workers) == InHand(p.workers)
  {
    hide InHand, Busy, Distinct;
    var u, q := Chosen(p.workers, pick), Signal(p, pick);
    if u < |p.workers| {
      SetIdle(p, q, u, q.workers[u]);
      ListedStays(p, q);
    }
  }

  lemma AddKeeps<J>(p: Pool<J>, job: J, pick: nat)
    requires Inv(p) && p.run && |p.workers| >= p.threadCount
    ensures Inv(Add(p, job, pick))
  {
    hide Inv, Signal, Push;
    PushKeeps(p, job);
    SignalKeeps(Push(p, job), pick);
  }

  // ----- steps of one worker -----

  lemma KeepHand<J>(ws: seq<Worker<J>>, t: nat, w: Worker<J>)
    requires t < |ws| && !ws[t].pc.Working? && !w.pc.Working?
    ensures InHand(ws[t := w]) == InHand(ws)
  {
    SetHand(ws, t, w);
    assert InHand(ws[t := w]) + multiset{} == InHand(ws[t := w]);
    assert InHand(ws) + multiset{} == InHand(ws);
  }

  // A worker that had no job and has none now.
  lemma SetIdle<J>(p: Pool<J>, q: Pool<J>, t: nat, w: Worker<J>)
    requires Counted(p) && t < |p.workers| && !p.workers[t].pc.Working? && !w.pc.Working?
    requires q.workers == p.workers[t := w] && !(w.pc.Waiting? && w.isBusy)
    requires q.busyThreads == p.busyThreads + (if w.isBusy then 1 else 0) - (if p.workers[t].isBusy then 1 else 0)
    ensures InHand(q.workers) == InHand(p.workers) && Counted(q)
  {
    KeepHand(p.workers, t, w);
    SetBusy(p.workers, t, w);
  }

  // A worker takes up a job.
  lemma SetWorking<J>(p: Pool<J>, t: nat, w: Worker<J>)
    requires t < |p.workers| && !p.workers[t].pc.Working? && w.pc.Working?
    ensures InHand(p.workers[t := w]) == InHand(p.workers) + multiset{w.pc.job}
  {
    SetHand(p.workers, t, w);
    assert InHand(p.workers[t := w]) + multiset{} == InHand(p.workers[t := w]);
  }

  // Nobody leaves or arrives: the lists stay right.
  lemma ListedStays<J>(p: Pool<J>, q: Pool<J>)
    requires Listed(p) && q.threads == p.threads && q.finished == p.finished && (q.run ==> p.run)
    requires |q.workers| == |p.workers| && forall t :: 0 <= t < |p.workers| ==> Gone(q, t) == Gone(p, t)
    ensures Listed(q)
  {
  }

  // Nobody goes to sleep once stop has begun.
  lemma RousedStays<J>(p: Pool<J>, q: Pool<J>, t: nat, w: Worker<J>)
    requires Roused(p) && t < |p.workers| && q.workers == p.workers[t := w] && q.run == p.run
    requires w.pc == Waiting(false) ==> p.run
    ensures Roused(q)
  {
    forall u | 0 <= u < |q.workers| && !q.run
      ensures !Sleeps(q.workers, u)
    {
      assert !Sleeps(p.workers, u);
    }
  }

  lemma PopNothing<J>(p: Pool<J>, t: nat, wasWaiting: bool)
    requires Inv(p) && t < |p.workers| && (p.workers[t].pc.Waiting? || p.workers[t].pc.Ready?)
    requires p.queue == []
    ensures Inv(Pop(p, t, wasWaiting))
  {
    hide InHand, Busy, Distinct;
    var q := Pop(p, t, wasWaiting);
    SetIdle(p, q, t, q.workers[t]);
    ListedStays(p, q);
    RousedStays(p, q, t, q.workers[t]);
  }

  lemma PopSome<J>(p: Pool<J>, t: nat, wasWaiting: bool)
    requires Inv(p) && t < |p.workers| && (p.workers[t].pc.Waiting? || p.workers[t].pc.Ready?)
    requires p.queue != [] && (wasWaiting ==> !p.workers[t].isBusy)
    ensures Inv(Pop(p, t, wasWaiting))
  {
    hide InHand, Busy, Distinct;
    var q := Pop(p, t, wasWaiting);
    var w := q.workers[t];
    assert Conserved(q) by {
      hide Listed, Bounded;
      SetWorking(p, t, w);
      TakeConserves(p, q, p.queue[0]);
    }
    assert Counted(q) by {
      hide Listed, Bounded, Conserved;
      SetBusy(p.workers, t, w);
    }
    ListedStays(p, q);
    RousedStays(p, q, t, q.workers[t]);
  }

  lemma TakeKeeps<J>(p: Pool<J>, t: nat, wasWaiting: bool, pick: nat)
    requires Inv(p) && t < |p.workers| && (p.workers[t].pc.Waiting? || p.workers[t].pc.Ready?)
    requires wasWaiting ==> !p.workers[t].isBusy
    ensures Inv(Take(p, t, wasWaiting, pick))
  {
    hide Inv, Signal, Pop;
    if p.queue == [] {
      PopNothing(p, t, wasWaiting);
    } else {
      PopSome(p, t, wasWaiting);
    }
    SignalKeeps(Pop(p, t, wasWaiting), pick);
  }

  lemma TakeConserves<J>(p: Pool<J>, q: Pool<J>, job: J)
    requires Conserved(p) && p.queue != [] && job == p.queue[0]
    requires q.queue == p.queue[1..] && q.popped == p.popped + [job] && q.added == p.added
    requires q.dropped == p.dropped && q.done == p.done && q.run == p.run && q.workers != [] && p.workers != []
    requires InHand(q.workers) == InHand(p.workers) + multiset{job}
    ensures Conserved(q)
  {
    hide InHand;
    assert p.queue == [job] + q.queue;
    assert q.added == q.popped + q.queue + q.dropped;
    assert multiset(q.popped) == multiset(p.popped) + multiset{job};
  }

  lemma EnterKeeps<J>(p: Pool<J>, t: nat, pick: nat)
    requires Inv(p) && t < |p.workers| && p.workers[t].pc.Ready?
    ensures Inv(Enter(p, t, pick))
  {
    hide InHand, Busy, Distinct;
    if p.run && p.workers[t].pc.skipWait {
      TakeKeeps(p, t, false, pick);
    } else {
      var q := Enter(p, t, pick);
      SetIdle(p, q, t, q.workers[t]);
      ListedStays(p, q);
      RousedStays(p, q, t, q.workers[t]);
    }
  }

  lemma FinishConserves<J>(p: Pool<J>, t: nat)
    requires Conserved(p) && t < |p.workers| && p.workers[t].pc.Working?
    ensures Conserved(Finish(p, t))
  {
    var q := Finish(p, t);
    var job := p.workers[t].pc.job;
    SetHand(p.workers, t, q.workers[t]);
    var before, after := InHand(p.workers), InHand(q.workers);
    assert after + multiset{job} == before + multiset{} == before;
    assert multiset(q.done) == multiset(p.done) + multiset{job};
    SwapLast(multiset(p.done), multiset{job}, after);
    assert multiset(p.done) + (after + multiset{job}) == multiset(p.done) + after + multiset{job};
  }

  lemma FinishKeeps<J>(p: Pool<J>, t: nat)
    requires Inv(p) && t < |p.workers| && p.workers[t].pc.Working?
    ensures Inv(Finish(p, t))
  {
    var q := Finish(p, t);
    FinishConserves(p, t);
    assert Counted(q) by {
      SetBusy(p.workers, t, q.workers[t]);
    }
    ListedStays(p, q);
    RousedStays(p, q, t, q.workers[t]);
  }

  lemma CheckListed<J>(p: Pool<J>, t: nat)
    requires Listed(p) && t < |p.workers| && p.workers[t].pc.Checking?
    ensures Listed(Check(p, t))
  {
    var q := Check(p, t);
    assert !Gone(p, t);
    assert forall x: nat :: x != t ==> Gone(q, x) == Gone(p, x);
    if p.run {
      ListedStays(p, q);
    }
  }

  lemma CheckKeeps<J>(p: Pool<J>, t: nat)
    requires Inv(p) && t < |p.workers| && p.workers[t].pc.Checking?
    ensures Inv(Check(p, t))
  {
    var q := Check(p, t);
    SetIdle(p, q, t, q.workers[t]);
    CheckListed(p, t);
    RousedStays(p, q, t, q.workers[t]);
  }

  lemma LeaveListed<J>(p: Pool<J>, t: nat)
    requires Listed(p) && t < |p.workers| && p.workers[t].pc.Leaving?
    ensures Listed(Leave(p, t))
  {
    var q := Leave(p, t);
    assert !Gone(p, t) && Gone(q, t);
    assert forall x: nat :: x != t ==> Gone(q, x) == Gone(p, x);
    assert forall x :: x in q.finished <==> x in p.finished || x == t;
    assert forall i :: 0 <= i < |p.finished| ==> p.finished[i] in p.finished;
  }

  lemma LeaveKeeps<J>(p: Pool<J>, t: nat)
    requires Inv(p) && t < |p.workers| && p.workers[t].pc.Leaving?
    ensures Inv(Leave(p, t))
  {
    var q := Leave(p, t);
    SetIdle(p, q, t, q.workers[t]);
    LeaveListed(p, t);
    RousedStays(p, q, t, q.workers[t]);
  }

  // ----- the main thread -----

  lemma WithoutFacts(s: seq<nat>, x: nat)
    requires Distinct(s) && x in s
    ensures Distinct(Without(s, x)) && |Without(s, x)| == |s| - 1
    ensures forall y :: y in Without(s, x) <==> y in s && y != x
  {
    var i := IndexOf(s, x);
    var r := Without(s, x);
    assert forall j :: 0 <= j < |r| ==> r[j] == if j < i then s[j] else s[j + 1];
    forall y | y in s && y != x
      ensures y in r
    {
      var j :| 0 <= j < |s| && s[j] == y;
      assert r[if j < i then j else j - 1] == y;
    }
  }

  lemma ShrinkKeeps<J>(p: Pool<J>)
    requires Inv(p) && p.run && p.finished != [] && |p.workers| >= p.threadCount
    ensures p.createdThreads > 0 && Inv(ShrinkOne(p))
  {
    var t := p.finished[0];
    assert t in p.finished;
    WithoutFacts(p.threads, t);
    var q := ShrinkOne(p);
    assert p.finished == [t] + q.finished;
    assert forall x: nat :: Gone(q, x) == Gone(p, x);
  }

  lemma JoinKeeps<J>(p: Pool<J>)
    requires Inv(p) && !p.run && p.threads != [] && Gone(p, p.threads[|p.threads| - 1])
    ensures Inv(Next(p, MainJoin))
  {
    var q := Next(p, MainJoin);
    var last := p.threads[|p.threads| - 1];
    assert p.threads == q.threads + [last];
    assert forall x: nat :: Gone(q, x) == Gone(p, x);
    assert forall x :: x in p.threads <==> x in q.threads || x == last;
  }

  lemma StartKeeps<J>(p: Pool<J>)
    requires Inv(p) && Enabled(p, MainStart)
    ensures Inv(Next(p, MainStart))
  {
    hide InHand, Busy, Distinct;
    var q := Next(p, MainStart);
    assert forall x: nat :: Gone(q, x) == Gone(p, x);
  }

  lemma {:induction false} BroadcastFacts<J>(ws: seq<Worker<J>>)
    ensures InHand(Broadcast(ws)) == InHand(ws) && Busy(Broadcast(ws)) == Busy(ws)
  {
    hide Hand;
    if ws != [] {
      var n := |ws| - 1;
      BroadcastFacts(ws[..n]);
      assert Broadcast(ws)[..n] == Broadcast(ws[..n]);
      RouseFacts(ws[n]);
    }
  }

  lemma RouseFacts<J>(w: Worker<J>)
    ensures Hand(Rouse(w)) == Hand(w) && Rouse(w).isBusy == w.isBusy
  {
  }

  lemma StopKeeps<J>(p: Pool<J>)
    requires Inv(p) && Enabled(p, MainStop)
    ensures Inv(Next(p, MainStop))
  {
    hide InHand, Busy, Distinct;
    var q := Next(p, MainStop);
    BroadcastFacts(p.workers);
    ListedStays(p, q);
  }

  lemma DropKeeps<J>(p: Pool<J>)
    requires Inv(p) && Enabled(p, MainClear)
    ensures Inv(Next(p, MainClear))
  {
    hide InHand, Busy, Distinct;
    var q := Next(p, MainClear);
    ListedStays(p, q);
    assert p.popped + p.queue + p.dropped == p.popped + [] + (p.queue + p.dropped);
  }

  // What only the main thread changes.
  // What no step of a worker changes, and what only grows.
  ghost predicate Framed<J>(p: Pool<J>, q: Pool<J>) {
    && q.run == p.run && |q.workers| == |p.workers| && q.threads == p.threads
    && q.added == p.added && q.dropped == p.dropped && p.popped <= q.popped && p.done <= q.done
  }

  lemma TakeFrame<J>(p: Pool<J>, t: nat, wasWaiting: bool, pick: nat)
    requires t < |p.workers|
    ensures Framed(p, Take(p, t, wasWaiting, pick))
  {
    hide Chosen, Sleeps;
  }

  lemma WorkerFrame<J>(p: Pool<J>, s: Step<J>)
    requires ByWorker(s) && Enabled(p, s)
    ensures Framed(p, Next(p, s))
  {
    hide Take;
    match s {
      case WorkerEnter(t, pick) => TakeFrame(p, t, false, pick);
      case WorkerWake(t, pick) => TakeFrame(p, t, true, pick);
      case WorkerSpurious(t, pick) => TakeFrame(p, t, true, pick);
      case _ =>
    }
  }

  /** Every step of every thread keeps conservation, order, counters and lists. */
  lemma StepKeeps<J>(p: Pool<J>, s: Step<J>)
    requires Inv(p) && Enabled(p, s)
    ensures Inv(Next(p, s))
  {
    match s {
      case MainSpawn => SpawnKeeps(p, false);
      case MainAdd(job, pick) => AddKeeps(p, job, pick);
      case MainShrink => ShrinkKeeps(p);
      case MainJoin => JoinKeeps(p);
      case WorkerEnter(t, pick) => EnterKeeps(p, t, pick);
      case WorkerWake(t, pick) => TakeKeeps(p, t, true, pick);
      case WorkerSpurious(t, pick) => TakeKeeps(p, t, true, pick);
      case WorkerFinish(t) => FinishKeeps(p, t);
      case WorkerCheck(t) => CheckKeeps(p, t);
      case WorkerLeave(t) => LeaveKeeps(p, t);
      case MainClear => DropKeeps(p);
      case MainStart => StartKeeps(p);
      case MainStop => StopKeeps(p);
    }
  }

  // ----- whole runs -----

  predicate IsRun<J>(p: Pool<J>, steps: seq<Step<J>>)
    decreases |steps|
  {
    steps == [] || (Enabled(p, steps[0]) && IsRun(Next(p, steps[0]), steps[1..]))
  }

  function After<J>(p: Pool<J>, steps: seq<Step<J>>): Pool<J>
    requires IsRun(p, steps)
    decreases |steps|
  {
    if steps == [] then p else After(Next(p, steps[0]), steps[1..])
  }

  lemma {:induction false} RunKeeps<J>(p: Pool<J>, steps: seq<Step<J>>)
    requires Inv(p) && IsRun(p, steps)
    ensures Inv(After(p, steps))
    decreases |steps|
  {
    if steps != [] {
      StepKeeps(p, steps[0]);
      RunKeeps(Next(p, steps[0]), steps[1..]);
    }
  }

  /** In every interleaving: jobs are popped first in, first out; none is lost or handed out
      twice; and the counters neither overflow the growth limit nor drop below zero. */
  lemma JobsConserved<J>(threadCount: nat, maxGrow: nat, steps: seq<Step<J>>)
    requires IsRun(New(threadCount, maxGrow), steps)
    ensures var p := After(New(threadCount, maxGrow), steps);
      && p.added == p.popped + p.queue + p.dropped
      && multiset(p.popped) == multiset(p.done) + InHand(p.workers)
      && p.busyThreads == Busy(p.workers) >= 0
      && p.createdThreads <= p.maxGrow && (p.run ==> p.createdThreads == |p.threads|)
  {
    NewInv<J>(threadCount, maxGrow);
    RunKeeps(New(threadCount, maxGrow), steps);
  }

  lemma {:induction false} AllGone<J>(ws: seq<Worker<J>>)
    requires forall t :: 0 <= t < |ws| ==> ws[t].pc.Exited?
    ensures InHand(ws) == multiset{}
  {
    if ws != [] {
      AllGone(ws[..|ws| - 1]);
    }
  }

  /** When stop has joined every thread, all popped jobs are done and the others are, in
      order, still in the queue (or have just been cleared from it). */
  lemma StoppedPool<J>(p: Pool<J>)
    requires Inv(p) && !p.run && p.threads == []
    ensures InHand(p.workers) == multiset{} && multiset(p.popped) == multiset(p.done)
    ensures p.added == p.popped + p.queue + p.dropped
  {
    forall t: nat | t < |p.workers|
      ensures p.workers[t].pc.Exited?
    {
      assert Gone(p, t);
    }
    AllGone(p.workers);
  }

  // ----- stop terminates -----

  function Rank<J>(pc: Pc<J>): nat {
    match pc
    case Waiting(_) => 4
    case Working(_) => 3
    case Ready(_) => 3
    case Checking => 2
    case Leaving => 1
    case Exited => 0
  }

  function TotalRank<J>(ws: seq<Worker<J>>): nat {
    if ws == [] then 0 else TotalRank(ws[..|ws| - 1]) + Rank(ws[|ws| - 1].pc)
  }

  lemma {:induction false} SetRank<J>(ws: seq<Worker<J>>, t: nat, w: Worker<J>)
    requires t < |ws|
    ensures TotalRank(ws[t := w]) + Rank(ws[t].pc) == TotalRank(ws) + Rank(w.pc)
  {
    var n := |ws| - 1;
    if t == n {
      assert ws[t := w][..n] == ws[..n];
    } else {
      SetRank(ws[..n], t, w);
      assert ws[t := w][..n] == ws[..n][t := w];
    }
  }

  lemma SignalRank<J>(p: Pool<J>, pick: nat)
    ensures TotalRank(Signal(p, pick).workers) == TotalRank(p.workers)
  {
    var u := Chosen(p.workers, pick);
    if u < |p.workers| {
      SetRank(p.workers, u, Signal(p, pick).workers[u]);
    }
  }

  lemma TakeRank<J>(p: Pool<J>, t: nat, wasWaiting: bool, pick: nat)
    requires t < |p.workers| && (p.workers[t].pc.Waiting? || p.workers[t].pc.Ready?)
    requires p.workers[t].pc.Ready? ==> p.queue == []
    ensures TotalRank(Take(p, t, wasWaiting, pick).workers) < TotalRank(p.workers)
  {
    hide TotalRank, Signal;
    var q := Pop(p, t, wasWaiting);
    SetRank(p.workers, t, q.workers[t]);
    SignalRank(q, pick);
  }

  /** After stop has cleared the run flag, each worker step brings the threads nearer their
      end, so joining them cannot take forever. */
  lemma StopProgress<J>(p: Pool<J>, s: Step<J>)
    requires !p.run && ByWorker(s) && Enabled(p, s)
    ensures !Next(p, s).run && TotalRank(Next(p, s).workers) < TotalRank(p.workers)
  {
    hide TotalRank, Signal;
    if s.WorkerWake? || s.WorkerSpurious? {
      TakeRank(p, s.t, true, s.pick);
    } else {
      SetRank(p.workers, s.t, Next(p, s).workers[s.t]);
    }
  }

  // A step that a thread takes sooner or later without relying on anything POSIX does not
  // promise.
  predicate Owed<J>(p: Pool<J>, t: nat, s: Step<J>) {
    ByWorker(s) && s.t == t && !s.WorkerSpurious? && Enabled(p, s)
  }

  /** A thread has no step of its own to take exactly if it is gone, or static and waiting
      for a signal that has not been given. */
  lemma StuckIff<J>(p: Pool<J>, t: nat)
    requires t < |p.workers|
    ensures (exists s :: Owed(p, t, s)) <==>
      !p.workers[t].pc.Exited? && !(Sleeps(p.workers, t) && !p.workers[t].isDynamic)
  {
    if !p.workers[t].pc.Exited? && !(Sleeps(p.workers, t) && !p.workers[t].isDynamic) {
      var s := OwnStep(p, t);
    }
  }

  lemma OwnStep<J>(p: Pool<J>, t: nat) returns (s: Step<J>)
    requires t < |p.workers| && !p.workers[t].pc.Exited?
    requires Sleeps(p.workers, t) ==> p.workers[t].isDynamic
    ensures Owed(p, t, s)
  {
    match p.workers[t].pc {
      case Ready(_) => s := WorkerEnter(t, 0);
      case Waiting(_) => s := WorkerWake(t, 0);
      case Working(_) => s := WorkerFinish(t);
      case Checking => s := WorkerCheck(t);
      case Leaving => s := WorkerLeave(t);
    }
  }

  /** Once stop has begun, a thread that is not gone always has a step to take: stop signals
      all that wait, and nobody waits after it. */
  lemma NeverStuck<J>(p: Pool<J>, t: nat) returns (s: Step<J>)
    requires Inv(p) && !p.run && t < |p.workers| && !p.workers[t].pc.Exited?
    ensures Owed(p, t, s)
  {
    assert !Sleeps(p.workers, t);
    s := OwnStep(p, t);
  }
}
