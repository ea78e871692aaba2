/** What one turn of the dispatcher comes to, and in which order messages are sent. */
module ApnsOutcome {
  import opened Options
  import opened Apns

  // ----- order -----

  function Bodies(ms: seq<Message>): seq<Message> {
    seq(|ms|, i requires 0 <= i < |ms| => ms[i].(id := 0))
  }

  // Nothing goes wrong: no rejection, no failed write, no job dropped when told to quit.
  predicate Orderly(s: Step) {
    s.Add? || s.Connect? || s.Look? || s.Sent? || s.NoJob? || s.Quit?
  }

  // What has been sent so far.
  function SentSoFar(d: Dispatcher): seq<Message> {
    d.evicted + d.sent
  }

  // What still has to be sent.
  function ToSend(d: Dispatcher): seq<Message> {
    (if d.pc.Holding? && d.pc.job.Some? then [d.pc.job.value] else []) + d.sendQueue
  }

  // Those sent have the numbers from one on, the others none yet.
  predicate CountedUp(sent: seq<Message>, rest: seq<Message>, counter: nat) {
    && counter == |sent|
    && (forall i :: 0 <= i < |sent| ==> sent[i].id == i + 1)
    && (forall i :: 0 <= i < |rest| ==> rest[i].id == 0)
  }

  predicate InOrder(d: Dispatcher) {
    Bodies(SentSoFar(d) + ToSend(d)) == Bodies(d.added) && CountedUp(SentSoFar(d), ToSend(d), d.idCounter)
  }

  lemma CountOneMore(sent: seq<Message>, m: Message, rest: seq<Message>, counter: nat)
    requires CountedUp(sent, [m] + rest, counter)
    ensures m.id == 0 && CountedUp(sent + [m.(id := counter + 1)], rest, counter + 1)
  {
    assert ([m] + rest)[0] == m;
    assert forall i :: 0 <= i < |rest| ==> rest[i] == ([m] + rest)[i + 1];
  }

  lemma BodiesSum(a: seq<Message>, b: seq<Message>)
    ensures Bodies(a + b) == Bodies(a) + Bodies(b)
  {
  }

  // The first message to be sent goes over to those that have been sent.
  lemma MovedOver(sent: seq<Message>, m: Message, n: Message, rest: seq<Message>)
    requires m.(id := 0) == n.(id := 0)
    ensures Bodies((sent + [n]) + rest) == Bodies(sent + ([m] + rest))
  {
    assert (sent + [n]) + rest == sent + ([n] + rest);
    forall i | 0 <= i < |sent| + 1 + |rest|
      ensures (sent + ([n] + rest))[i].(id := 0) == (sent + ([m] + rest))[i].(id := 0)
    {
    }
  }

  lemma SentSoFarNext(d: Dispatcher)
    requires Enabled(d, Sent) && d.pc.job.value.id == 0
    ensures var q := Next(d, Sent);
      && SentSoFar(q) == SentSoFar(d) + [d.pc.job.value.(id := d.idCounter + 1)]
      && ToSend(q) == d.sendQueue && ToSend(d) == [d.pc.job.value] + d.sendQueue
      && q.idCounter == d.idCounter + 1 && q.added == d.added
  {
    var n := d.pc.job.value.(id := d.idCounter + 1);
    assert d.evicted + (d.sent + [n]) == d.evicted + d.sent + [n];
    if |d.sent| + 1 > SENT_BUFFER_SIZE {
      assert d.sent + [n] == [(d.sent + [n])[0]] + (d.sent + [n])[1..];
    }
  }

  lemma SentInOrder(d: Dispatcher)
    requires InOrder(d) && Enabled(d, Sent)
    ensures InOrder(Next(d, Sent))
  {
    var m := d.pc.job.value;
    assert ToSend(d) == [m] + d.sendQueue;
    CountOneMore(SentSoFar(d), m, d.sendQueue, d.idCounter);
    SentSoFarNext(d);
    hide SentSoFar, ToSend, Next, Enabled, Bodies, CountedUp;
    MovedOver(SentSoFar(d), m, m.(id := d.idCounter + 1), d.sendQueue);
  }

  lemma AddedInOrder(d: Dispatcher, m: Message)
    requires InOrder(d) && Enabled(d, Add(m))
    ensures InOrder(Next(d, Add(m)))
  {
    var q := Next(d, Add(m));
    assert ToSend(q) == ToSend(d) + [m] && SentSoFar(q) == SentSoFar(d);
    hide SentSoFar, ToSend;
    assert SentSoFar(q) + ToSend(q) == (SentSoFar(d) + ToSend(d)) + [m];
    BodiesSum(SentSoFar(d) + ToSend(d), [m]);
    BodiesSum(d.added, [m]);
  }

  lemma StepInOrder(d: Dispatcher, s: Step)
    requires InOrder(d) && Enabled(d, s) && Orderly(s)
    ensures InOrder(Next(d, s))
  {
    if s.Sent? {
      SentInOrder(d);
    } else if s.Add? {
      AddedInOrder(d, s.m);
    } else {
      assert ToSend(Next(d, s)) == ToSend(d) && SentSoFar(Next(d, s)) == SentSoFar(d);
    }
  }

  /** As long as nothing goes wrong messages are sent in the order in which they were queued, each
      once, and numbered from one on. */
  lemma {:induction false} SentInTheirOrder(d: Dispatcher, steps: seq<Step>)
    requires InOrder(d) && IsRun(d, steps) && forall i :: 0 <= i < |steps| ==> Orderly(steps[i])
    ensures InOrder(Reached(d, steps))
    decreases |steps|
  {
    hide InOrder, Enabled, Next, Orderly;
    if steps != [] {
      assert Orderly(steps[0]);
      StepInOrder(d, steps[0]);
      SentInTheirOrder(Next(d, steps[0]), steps[1..]);
    }
  }

  lemma StartsInOrder()
    ensures InOrder(NEW)
  {
  }

  // ----- one turn -----

  /** What a turn leaves, by what happens in it: told to quit, it loses the job in its hands; after
      an error the job goes to the end of the queue, followed by what was sent after the rejected
      message; a job that is written goes to the buffer, whose oldest message leaves if it is full;
      one that is not goes to the end of the queue with its number. */
  lemma TurnLeaves(d: Dispatcher, quit: bool, error: Option<nat>, written: bool)
    requires d.pc == Looking && d.running && d.idCounter < MAX_INT
    requires IsRun(d, TurnSteps(d.sendQueue != [], quit, error, written))
    ensures var r := Reached(d, TurnSteps(d.sendQueue != [], quit, error, written));
      if quit then
        r == (if d.sendQueue == [] then d
              else d.(sendQueue := d.sendQueue[1..], lost := d.lost + [d.sendQueue[0]])).(running := false, pc := Connecting)
      else if error.Some? then
        var queue := if d.sendQueue == [] then [] else d.sendQueue[1..] + [d.sendQueue[0]];
        r == (if error.value > 0 then Reenqueue(d.(sendQueue := queue), error.value) else d.(sendQueue := queue)).(pc := Connecting)
      else if d.sendQueue == [] then r == d
      else
        var job := d.sendQueue[0];
        var m := if job.id == 0 then job.(id := d.idCounter + 1) else job;
        var counter := if job.id == 0 then d.idCounter + 1 else d.idCounter;
        if !written then
          r == d.(sendQueue := d.sendQueue[1..] + [m], idCounter := counter, pc := Connecting)
        else if |d.sent| < 128 then
          r == d.(sendQueue := d.sendQueue[1..], sent := d.sent + [m], idCounter := counter)
        else
          r == d.(sendQueue := d.sendQueue[1..], sent := (d.sent + [m])[1..], idCounter := counter,
            evicted := d.evicted + [(d.sent + [m])[0]])
  {
    hide After, UpTo, IsRun, Reached;
    var steps := TurnSteps(d.sendQueue != [], quit, error, written);
    if |steps| == 2 {
      TwoSteps(d, steps[0], steps[1]);
    } else {
      ThreeSteps(d, steps[0], steps[1], steps[2]);
    }
    assert d.lost + [] == d.lost && d.sendQueue + [] == d.sendQueue;
  }

  lemma TwoSteps(d: Dispatcher, s: Step, t: Step)
    requires IsRun(d, [s, t])
    ensures Enabled(d, s) && Enabled(Next(d, s), t) && Reached(d, [s, t]) == Next(Next(d, s), t)
  {
    hide Enabled, Next;
    assert [s, t][1..] == [t] && [t][1..] == [];
    assert Reached(Next(d, s), [t]) == Reached(Next(Next(d, s), t), []) == Next(Next(d, s), t);
  }

  lemma ThreeSteps(d: Dispatcher, s: Step, t: Step, u: Step)
    requires IsRun(d, [s, t, u])
    ensures Enabled(d, s) && Enabled(Next(d, s), t) && Enabled(Next(Next(d, s), t), u)
    ensures Reached(d, [s, t, u]) == Next(Next(Next(d, s), t), u)
  {
    hide Enabled, Next;
    assert [s, t, u][1..] == [t, u];
    TwoSteps(Next(d, s), t, u);
  }
}
