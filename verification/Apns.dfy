/** The dispatcher of push notifications: a queue of messages to send and a bounded buffer
    of messages sent, from which a rejected stream is replayed. */
module Apns {

  import opened Options

  const SENT_BUFFER_SIZE: nat := 128
  const MAX_INT: int := 0x7fff_ffff

  // id is zero until the message is sent for the first time.
  datatype Message = Message(id: nat, expiry: nat, deviceToken: string, payload: string)

  // What stays the same of a message when it is given an id.
  function Body(m: Message): Message {
    m.(id := 0)
  }

  // Where the dispatcher thread is: connecting; about to look for a job; having looked, with
  // or without one; about to replay the messages sent after a rejected one.
  datatype Pc = Connecting | Looking | Holding(job: Option<Message>) | Rejected(failedId: nat)

  /** The fields of the dispatcher, and what became of messages that are in none of them:
      evicted from the full buffer, dropped as delivered or rejected, or lost because the
      thread was told to quit with a job in its hands. */
  datatype Dispatcher = Dispatcher(
    sendQueue: seq<Message>, sent: seq<Message>, idCounter: nat, running: bool, pc: Pc,
    added: seq<Message>, evicted: seq<Message>, dropped: seq<Message>, lost: seq<Message>)

  const NEW: Dispatcher := Dispatcher([], [], 0, true, Connecting, [], [], [], [])

  // ----- rejection -----

  // The place of the first message with that id, or the length.
  function Find(ms: seq<Message>, id: nat): (i: nat)
    ensures i <= |ms|
  {
    if ms == [] || ms[0].id == id then 0 else 1 + Find(ms[1..], id)
  }

  function After(sent: seq<Message>, id: nat): seq<Message> {
    var i := Find(sent, id);
    if i < |sent| then sent[i + 1..] else []
  }

  function UpTo(sent: seq<Message>, id: nat): seq<Message> {
    var i := Find(sent, id);
    if i < |sent| then sent[..i + 1] else sent
  }

  function Reenqueue(d: Dispatcher, id: nat): Dispatcher {
    d.(sendQueue := d.sendQueue + After(d.sent, id), sent := [], dropped := d.dropped + UpTo(d.sent, id))
  }

  predicate DistinctIds(ms: seq<Message>) {
    forall i, j :: 0 <= i < j < |ms| && ms[i].id == ms[j].id ==> ms[i].id == 0
  }

  lemma {:induction false} FindFacts(ms: seq<Message>, id: nat)
    ensures var i := Find(ms, id); i < |ms| ==> ms[i].id == id
    ensures forall j :: 0 <= j < Find(ms, id) ==> ms[j].id != id
  {
    if ms != [] && ms[0].id != id {
      FindFacts(ms[1..], id);
      assert forall j :: 0 < j < |ms| ==> ms[j] == ms[1..][j - 1];
    }
  }

  /** A rejection of the message at position k of the buffer drops exactly the messages up
      to it and queues the others again in their order, behind everything already queued. */
  lemma RejectionOfBuffered(d: Dispatcher, k: nat)
    requires k < |d.sent| && d.sent[k].id > 0 && DistinctIds(d.sent)
    ensures var r := Reenqueue(d, d.sent[k].id);
      && r.dropped == d.dropped + d.sent[..k + 1]
      && r.sendQueue == d.sendQueue + d.sent[k + 1..] && r.sent == []
  {
    FindFacts(d.sent, d.sent[k].id);
  }

  /** Nothing is queued again exactly if the id is not in the buffer or is the last one
      there; in the first case the whole buffer is dropped. */
  lemma NothingReplayedIff(d: Dispatcher, id: nat)
    requires id > 0 && DistinctIds(d.sent)
    ensures Reenqueue(d, id).sendQueue == d.sendQueue <==>
      (forall k :: 0 <= k < |d.sent| && d.sent[k].id == id ==> k == |d.sent| - 1)
    ensures Reenqueue(d, id).dropped == d.dropped + d.sent <==>
      (forall k :: 0 <= k < |d.sent| && d.sent[k].id == id ==> k == |d.sent| - 1)
  {
    FindFacts(d.sent, id);
    var i := Find(d.sent, id);
    if i < |d.sent| {
      assert d.sent == UpTo(d.sent, id) + After(d.sent, id);
      assert |Reenqueue(d, id).sendQueue| == |d.sendQueue| + |d.sent| - 1 - i;
      assert |Reenqueue(d, id).dropped| == |d.dropped| + i + 1;
      if i == |d.sent| - 1 {
        assert After(d.sent, id) == [];
        assert d.sendQueue + [] == d.sendQueue;
      }
    } else {
      assert d.sendQueue + [] == d.sendQueue;
    }
  }

  // ----- ids on the wire -----

  function Swap16(x: bv16): bv16 {
    (x << 8) | (x >> 8)
  }

  // htons and ntohs work on 16 bits; memcpy takes the bytes of the 32-bit variable that holds
  // the result, the low ones first.
  function Wire(id: bv32): seq<bv8> {
    var v := Swap16((id & 0xffff) as bv16) as bv32;
    [(v & 0xff) as bv8, ((v >> 8) & 0xff) as bv8, ((v >> 16) & 0xff) as bv8, ((v >> 24) & 0xff) as bv8]
  }

  function Unwire(bytes: seq<bv8>): bv32
    requires |bytes| == 4
  {
    var v := (bytes[0] as bv32) | (bytes[1] as bv32 << 8) | (bytes[2] as bv32 << 16) | (bytes[3] as bv32 << 24);
    Swap16((v & 0xffff) as bv16) as bv32
  }

  /** An id that the service sends back as it got it is read as its remainder modulo 65536:
      the rejected message is recognised exactly if its id is below 65536. */
  lemma ReportedIdIff(id: bv32)
    ensures Unwire(Wire(id)) == id % 0x1_0000
    ensures Unwire(Wire(id)) == id <==> id < 0x1_0000
  {
  }

  // ----- steps -----

  datatype Step =
    | Add(m: Message)            // enqueue from the control thread
    | Connect
    | Look                       // pop the next job if there is one
    | Lose                       // told to quit
    | PutBack(failedId: nat)     // an error was reported; a job in hand goes back to the queue
    | Replay                     // reenqueueAfterError, and on to the next connection
    | Sent                       // the job was written
    | SendFails
    | NoJob
    | Quit

  function Numbered(d: Dispatcher, m: Message): Message {
    if m.id == 0 then m.(id := d.idCounter + 1) else m
  }

  function Counter(d: Dispatcher, m: Message): nat {
    if m.id == 0 then d.idCounter + 1 else d.idCounter
  }

  // A counter at the top of its range cannot be increased.
  predicate CanSend(d: Dispatcher) {
    d.pc.Holding? && d.pc.job.Some? && (d.pc.job.value.id == 0 ==> d.idCounter < MAX_INT)
  }

  predicate Enabled(d: Dispatcher, s: Step) {
    match s
    case Add(m) => m.id == 0
    case Connect => d.pc.Connecting? && d.running
    case Look => d.pc.Looking?
    case Lose => d.pc.Holding? && !d.running
    case PutBack(_) => d.pc.Holding?
    case Replay => d.pc.Rejected?
    case Sent => CanSend(d)
    case SendFails => CanSend(d)
    case NoJob => d.pc == Holding(None)
    case Quit => true
  }

  function Hand(d: Dispatcher): seq<Message> {
    if d.pc.Holding? && d.pc.job.Some? then [d.pc.job.value] else []
  }

  function PushSent(d: Dispatcher, m: Message): Dispatcher {
    var sent := d.sent + [m];
    if |sent| > SENT_BUFFER_SIZE then d.(sent := sent[1..], evicted := d.evicted + [sent[0]]) else d.(sent := sent)
  }

  function Next(d: Dispatcher, s: Step): Dispatcher
    requires Enabled(d, s)
  {
    match s
    case Add(m) => d.(sendQueue := d.sendQueue + [m], added := d.added + [m])
    case Connect => d.(pc := Looking)
    case Look =>
      if d.sendQueue == [] then d.(pc := Holding(None))
      else d.(sendQueue := d.sendQueue[1..], pc := Holding(Some(d.sendQueue[0])))
    case Lose => d.(lost := d.lost + Hand(d), pc := Connecting)
    case PutBack(id) => d.(sendQueue := d.sendQueue + Hand(d), pc := Rejected(id))
    case Replay => (if d.pc.failedId > 0 then Reenqueue(d, d.pc.failedId) else d).(pc := Connecting)
    case Sent =>
      var m := Numbered(d, d.pc.job.value);
      PushSent(d, m).(idCounter := Counter(d, d.pc.job.value), pc := Looking)
    case SendFails =>
      var m := Numbered(d, d.pc.job.value);
      d.(sendQueue := d.sendQueue + [m], idCounter := Counter(d, d.pc.job.value), pc := Connecting)
    case NoJob => d.(pc := Looking)
    case Quit => d.(running := false)
  }

  // ----- the replay after a rejection, with the id as it is reported -----

  lemma {:induction false} FindAbsent(ms: seq<Message>, id: nat)
    requires forall i :: 0 <= i < |ms| ==> ms[i].id != id
    ensures Find(ms, id) == |ms|
  {
    if ms != [] {
      FindAbsent(ms[1..], id);
    }
  }

  /** When the service rejects the message at position k of the buffer and the dispatcher acts
      on the id as reported, exactly the messages up to it are dropped and the others queued
      again if and only if the id has 16 bits, or the message is the last one and the
      reported id is neither zero nor in the buffer. */
  lemma RejectionExactIff(d: Dispatcher, k: nat)
    requires k < |d.sent| && d.sent[k].id > 0 && DistinctIds(d.sent)
    requires d.pc == Rejected(d.sent[k].id % 0x1_0000)
    ensures var r, reported := Next(d, Replay), d.sent[k].id % 0x1_0000;
      (r.dropped == d.dropped + d.sent[..k + 1] && r.sendQueue == d.sendQueue + d.sent[k + 1..] && r.sent == []) <==>
        (d.sent[k].id < 0x1_0000
         || (k == |d.sent| - 1 && reported > 0 && forall i :: 0 <= i < |d.sent| ==> d.sent[i].id != reported))
  {
    var x := d.sent[k].id;
    var reported := x % 0x1_0000;
    if x < 0x1_0000 {
      RejectionOfBuffered(d, k);
    } else if reported > 0 {
      FindFacts(d.sent, reported);
      var i := Find(d.sent, reported);
      assert |Next(d, Replay).dropped| == |d.dropped| + (if i < |d.sent| then i + 1 else |d.sent|);
      assert |d.dropped + d.sent[..k + 1]| == |d.dropped| + k + 1;
      if forall j :: 0 <= j < |d.sent| ==> d.sent[j].id != reported {
        FindAbsent(d.sent, reported);
        assert k == |d.sent| - 1 ==> d.sent[..k + 1] == d.sent;
      }
    }
  }

  // ----- conservation -----

  ghost function Tally(f: Message -> Message, ms: seq<Message>): multiset<Message> {
    multiset(seq(|ms|, i requires 0 <= i < |ms| => f(ms[i])))
  }

  lemma TallySum(f: Message -> Message, a: seq<Message>, b: seq<Message>)
    ensures Tally(f, a + b) == Tally(f, a) + Tally(f, b)
  {
    var x := seq(|a|, i requires 0 <= i < |a| => f(a[i]));
    var y := seq(|b|, i requires 0 <= i < |b| => f(b[i]));
    assert seq(|a + b|, i requires 0 <= i < |a + b| => f((a + b)[i])) == x + y;
  }

  lemma TallySplit(f: Message -> Message, ms: seq<Message>, i: nat)
    requires i <= |ms|
    ensures Tally(f, ms) == Tally(f, ms[..i]) + Tally(f, ms[i..])
  {
    assert ms == ms[..i] + ms[i..];
    TallySum(f, ms[..i], ms[i..]);
  }

  lemma TallyNone(f: Message -> Message)
    ensures Tally(f, []) == multiset{}
  {
  }

  // Everything that is or was in the dispatcher's hands, with f applied to each message.
  ghost function Total(f: Message -> Message, d: Dispatcher): multiset<Message> {
    Tally(f, d.sendQueue) + Tally(f, Hand(d)) + Tally(f, d.sent)
    + Tally(f, d.evicted) + Tally(f, d.dropped) + Tally(f, d.lost)
  }

  /** Each message is in exactly one place: the places together hold what was added. */
  ghost predicate Conserved(d: Dispatcher) {
    Total(Body, d) == Tally(Body, d.added)
  }

  function Same(m: Message): Message {
    m
  }

  // No id has been given to two messages.
  ghost predicate IdsGood(d: Dispatcher) {
    AllNumbered(Total(Same, d), d.idCounter)
  }

  ghost predicate AllNumbered(all: multiset<Message>, counter: nat) {
    && (forall m :: m in all ==> m.id <= counter)
    && (forall m :: m in all && m.id > 0 ==> all[m] == 1)
    && (forall m, n :: m in all && n in all && m.id == n.id > 0 ==> m == n)
  }

  ghost predicate Inv(d: Dispatcher) {
    && Conserved(d) && IdsGood(d) && |d.sent| <= SENT_BUFFER_SIZE
    && (forall i :: 0 <= i < |d.sent| ==> d.sent[i].id > 0)
    && (d.running ==> d.lost == [])
  }

  lemma ReplayTotal(f: Message -> Message, d: Dispatcher, id: nat)
    ensures Total(f, Reenqueue(d, id)) == Total(f, d)
  {
    hide Tally, Find;
    var gone, back := UpTo(d.sent, id), After(d.sent, id);
    assert d.sent == gone + back;
    TallySum(f, gone, back);
    TallySum(f, d.sendQueue, back);
    TallySum(f, d.dropped, gone);
    TallyNone(f);
    var r := Reenqueue(d, id);
    var q, h, e, l := Tally(f, d.sendQueue), Tally(f, Hand(d)), Tally(f, d.evicted), Tally(f, d.lost);
    assert Total(f, d) == q + h + (Tally(f, gone) + Tally(f, back)) + e + Tally(f, d.dropped) + l;
    assert Total(f, r) == (q + Tally(f, back)) + h + multiset{} + e + (Tally(f, d.dropped) + Tally(f, gone)) + l;
    Replayed(q, h, Tally(f, gone), Tally(f, back), e, Tally(f, d.dropped), l);
  }

  lemma Replayed(q: multiset<Message>, h: multiset<Message>, g: multiset<Message>, b: multiset<Message>,
      e: multiset<Message>, d: multiset<Message>, l: multiset<Message>)
    ensures q + h + (g + b) + e + d + l == (q + b) + h + multiset{} + e + (d + g) + l
  {
  }

  lemma LookTotal(f: Message -> Message, d: Dispatcher)
    requires Enabled(d, Look)
    ensures Total(f, Next(d, Look)) == Total(f, d)
  {
    hide Tally;
    TallyNone(f);
    if d.sendQueue != [] {
      TallySplit(f, d.sendQueue, 1);
      assert d.sendQueue[..1] == [d.sendQueue[0]];
      var x, q := Tally(f, d.sendQueue[..1]), Tally(f, d.sendQueue[1..]);
      assert (x + q) + multiset{} == q + x;
    }
  }

  // The hand is emptied into the queue or among the lost.
  lemma PutDownTotal(f: Message -> Message, d: Dispatcher, s: Step)
    requires Enabled(d, s) && (s.Lose? || s.PutBack?)
    ensures Total(f, Next(d, s)) == Total(f, d)
  {
    hide Tally;
    TallyNone(f);
    TallySum(f, d.sendQueue, Hand(d));
    TallySum(f, d.lost, Hand(d));
    var q, h := Tally(f, d.sendQueue), Tally(f, Hand(d));
    Shuffle(q, h, Tally(f, d.sent), Tally(f, d.evicted), Tally(f, d.dropped), Tally(f, d.lost));
  }

  lemma Shuffle(q: multiset<Message>, h: multiset<Message>, s: multiset<Message>, e: multiset<Message>,
      d: multiset<Message>, l: multiset<Message>)
    ensures q + h + s + e + d + l == (q + h) + multiset{} + s + e + d + l
    ensures q + h + s + e + d + l == q + multiset{} + s + e + d + (l + h)
    ensures q + h + s + e + d + l == q + multiset{} + (s + h) + e + d + l
  {
  }

  lemma PushTotal(f: Message -> Message, d: Dispatcher, m: Message)
    ensures Total(f, PushSent(d, m)) == Total(f, d.(sent := d.sent + [m]))
  {
    hide Tally;
    var sent := d.sent + [m];
    if |sent| > SENT_BUFFER_SIZE {
      TallySplit(f, sent, 1);
      assert sent[..1] == [sent[0]];
      TallySum(f, d.evicted, [sent[0]]);
      Evict(Tally(f, d.sendQueue) + Tally(f, Hand(d)), Tally(f, [sent[0]]), Tally(f, sent[1..]), Tally(f, d.evicted));
    }
  }

  lemma Evict(a: multiset<Message>, x: multiset<Message>, s: multiset<Message>, e: multiset<Message>)
    ensures a + (x + s) + e == a + s + (e + x)
  {
  }

  // The job in hand is written or goes back; f must not look at an id that is given to it.
  lemma TallySame(f: Message -> Message, m: Message, n: Message)
    requires f(n) == f(m)
    ensures Tally(f, [n]) == Tally(f, [m])
  {
    assert seq(1, i requires 0 <= i < 1 => f([n][i])) == seq(1, i requires 0 <= i < 1 => f([m][i]));
  }

  lemma SendTotal(f: Message -> Message, d: Dispatcher, s: Step)
    requires Enabled(d, s) && (s.Sent? || s.SendFails?)
    requires var m := d.pc.job.value; f(Numbered(d, m)) == f(m)
    ensures Total(f, Next(d, s)) == Total(f, d)
  {
    hide Tally;
    var m := d.pc.job.value;
    var n := Numbered(d, m);
    TallySame(f, m, n);
    TallyNone(f);
    var e := d.(idCounter := Counter(d, m), pc := Looking);
    Shuffle(Tally(f, d.sendQueue), Tally(f, [m]), Tally(f, d.sent), Tally(f, d.evicted), Tally(f, d.dropped), Tally(f, d.lost));
    if s.Sent? {
      TallySum(f, d.sent, [n]);
      PushTotal(f, e, n);
      assert Next(d, s) == PushSent(e, n);
    } else {
      TallySum(f, d.sendQueue, [n]);
    }
  }

  // The job in hand with its id.
  function Held(d: Dispatcher): Dispatcher
    requires CanSend(d)
  {
    d.(pc := Holding(Some(Numbered(d, d.pc.job.value))), idCounter := Counter(d, d.pc.job.value))
  }

  lemma NumberAll(rest: multiset<Message>, m: Message, counter: nat)
    requires AllNumbered(rest + multiset{m}, counter) && m.id == 0
    ensures AllNumbered(rest + multiset{m.(id := counter + 1)}, counter + 1)
  {
    var n := m.(id := counter + 1);
    assert forall x :: x in rest ==> x in rest + multiset{m};
    assert n !in rest;
  }

  lemma HandLast(a: multiset<Message>, h: multiset<Message>, b: multiset<Message>, c: multiset<Message>,
      d: multiset<Message>, e: multiset<Message>)
    ensures a + h + b + c + d + e == (a + b + c + d + e) + h
  {
  }

  lemma TallyOne(m: Message)
    ensures Tally(Same, [m]) == multiset{m}
  {
    assert seq(1, i requires 0 <= i < 1 => Same([m][i])) == [m];
  }

  lemma HeldIds(d: Dispatcher)
    requires CanSend(d) && IdsGood(d)
    ensures IdsGood(Held(d))
  {
    hide Tally, AllNumbered;
    var m := d.pc.job.value;
    if m.id == 0 {
      var n := Numbered(d, m);
      var a, b, c := Tally(Same, d.sendQueue), Tally(Same, d.sent), Tally(Same, d.evicted);
      var e, l := Tally(Same, d.dropped), Tally(Same, d.lost);
      TallyOne(m);
      TallyOne(n);
      HandLast(a, multiset{m}, b, c, e, l);
      HandLast(a, multiset{n}, b, c, e, l);
      NumberAll(a + b + c + e + l, m, d.idCounter);
    } else {
      assert Held(d) == d;
    }
  }

  lemma SendIds(d: Dispatcher, s: Step)
    requires Enabled(d, s) && (s.Sent? || s.SendFails?) && IdsGood(d)
    ensures IdsGood(Next(d, s))
  {
    hide Total, AllNumbered;
    var h := Held(d);
    HeldIds(d);
    SendTotal(Same, h, s);
    assert Next(h, s) == Next(d, s);
  }

  lemma AddKeeps(d: Dispatcher, m: Message)
    requires Inv(d) && m.id == 0
    ensures Inv(Next(d, Add(m)))
  {
    hide Tally;
    var r := Next(d, Add(m));
    assert Conserved(r) by {
      TallySum(Body, d.sendQueue, [m]);
      TallySum(Body, d.added, [m]);
      Front(Tally(Body, d.sendQueue), Tally(Body, [m]), Tally(Body, Hand(d)), Tally(Body, d.sent),
        Tally(Body, d.evicted), Tally(Body, d.dropped), Tally(Body, d.lost));
    }
    assert IdsGood(r) by {
      TallySum(Same, d.sendQueue, [m]);
      TallyOne(m);
      Front(Tally(Same, d.sendQueue), multiset{m}, Tally(Same, Hand(d)), Tally(Same, d.sent),
        Tally(Same, d.evicted), Tally(Same, d.dropped), Tally(Same, d.lost));
      AddUnnumbered(Total(Same, d), m, d.idCounter);
    }
  }

  lemma Front(q: multiset<Message>, x: multiset<Message>, h: multiset<Message>, s: multiset<Message>,
      e: multiset<Message>, d: multiset<Message>, l: multiset<Message>)
    ensures (q + x) + h + s + e + d + l == (q + h + s + e + d + l) + x
  {
  }

  lemma AddUnnumbered(all: multiset<Message>, m: Message, counter: nat)
    requires AllNumbered(all, counter) && m.id == 0
    ensures AllNumbered(all + multiset{m}, counter)
  {
  }

  lemma SendKeeps(d: Dispatcher, s: Step)
    requires Inv(d) && Enabled(d, s) && (s.Sent? || s.SendFails?)
    ensures Inv(Next(d, s))
  {
    hide Total, Tally, IdsGood;
    SendTotal(Body, d, s);
    SendIds(d, s);
    SendBuffer(d, s);
  }

  lemma SendBuffer(d: Dispatcher, s: Step)
    requires Enabled(d, s) && (s.Sent? || s.SendFails?)
    requires |d.sent| <= SENT_BUFFER_SIZE && forall i :: 0 <= i < |d.sent| ==> d.sent[i].id > 0
    ensures var r := Next(d, s);
      && |r.sent| <= SENT_BUFFER_SIZE && (forall i :: 0 <= i < |r.sent| ==> r.sent[i].id > 0)
      && r.lost == d.lost && r.running == d.running && r.added == d.added
  {
    var m := Numbered(d, d.pc.job.value);
    assert forall i :: 0 <= i <= |d.sent| ==> (d.sent + [m])[i].id > 0;
  }

  /** Every step of the dispatcher thread, and everything the control thread does meanwhile,
      keeps each message in one place, each id with one message, and the buffer small. */
  lemma StepKeeps(d: Dispatcher, s: Step)
    requires Inv(d) && Enabled(d, s)
    ensures Inv(Next(d, s))
  {
    hide Tally, AllNumbered;
    match s {
      case Add(m) => AddKeeps(d, m);
      case Look =>
        LookTotal(Body, d);
        LookTotal(Same, d);
      case Sent => SendKeeps(d, s);
      case SendFails => SendKeeps(d, s);
      case Replay =>
        ReplayTotal(Body, d, d.pc.failedId);
        ReplayTotal(Same, d, d.pc.failedId);
      case Connect => assert Hand(Next(d, s)) == Hand(d);
      case NoJob => assert Hand(Next(d, s)) == Hand(d);
      case Quit => assert Hand(Next(d, s)) == Hand(d);
      case _ =>
        PutDownTotal(Body, d, s);
        PutDownTotal(Same, d, s);
    }
  }

  // ----- whole runs -----

  predicate IsRun(d: Dispatcher, steps: seq<Step>)
    decreases |steps|
  {
    steps == [] || (Enabled(d, steps[0]) && IsRun(Next(d, steps[0]), steps[1..]))
  }

  function Reached(d: Dispatcher, steps: seq<Step>): Dispatcher
    requires IsRun(d, steps)
    decreases |steps|
  {
    if steps == [] then d else Reached(Next(d, steps[0]), steps[1..])
  }

  lemma {:induction false} RunKeeps(d: Dispatcher, steps: seq<Step>)
    requires Inv(d) && IsRun(d, steps)
    ensures Inv(Reached(d, steps))
    decreases |steps|
  {
    hide Inv, Enabled, Next;
    if steps != [] {
      StepKeeps(d, steps[0]);
      RunKeeps(Next(d, steps[0]), steps[1..]);
    }
  }

  lemma TwiceInTally(ms: seq<Message>, i: nat, j: nat)
    requires i < j < |ms| && ms[i] == ms[j]
    ensures Tally(Same, ms)[ms[i]] >= 2
  {
    TallySplit(Same, ms, j);
    TallySplit(Same, ms[..j], i);
    TallySplit(Same, ms[..j][i..], 1);
    TallySplit(Same, ms[j..], 1);
    assert ms[..j][i..][..1] == [ms[i]] && ms[j..][..1] == [ms[i]];
    TallyOne(ms[i]);
  }

  /** Over every run from the start: the messages added are, as a multiset, those queued, in
      hand, in the buffer, evicted, dropped and, after quit only, lost; the buffer holds at
      most 128 messages, no two with the same id. */
  lemma MessagesConserved(steps: seq<Step>)
    requires IsRun(NEW, steps)
    ensures var d := Reached(NEW, steps);
      && Conserved(d) && IdsGood(d) && (d.running ==> d.lost == [])
      && |d.sent| <= 128 && DistinctIds(d.sent) && DistinctIds(d.sendQueue)
  {
    NewInv();
    RunKeeps(NEW, steps);
    var d := Reached(NEW, steps);
    assert forall m :: m in Tally(Same, d.sent) ==> m in Total(Same, d);
    Different(d, d.sent);
    Different(d, d.sendQueue);
  }

  lemma NewInv()
    ensures Inv(NEW)
  {
    TallyNone(Body);
    TallyNone(Same);
  }

  lemma Different(d: Dispatcher, ms: seq<Message>)
    requires IdsGood(d) && Tally(Same, ms) <= Total(Same, d)
    ensures DistinctIds(ms)
  {
    hide Tally, Total;
    forall i, j | 0 <= i < j < |ms| && ms[i].id == ms[j].id
      ensures ms[i].id == 0
    {
      InTally(ms, i);
      InTally(ms, j);
      if ms[i].id > 0 {
        TwiceInTally(ms, i, j);
        assert false;
      }
    }
  }

  lemma InTally(ms: seq<Message>, i: nat)
    requires i < |ms|
    ensures ms[i] in Tally(Same, ms)
  {
    TallySplit(Same, ms, i);
    TallySplit(Same, ms[i..], 1);
    assert ms[i..][..1] == [ms[i]];
    TallyOne(ms[i]);
  }

  // ----- the object -----

  lemma {:induction false} RunSnoc(d: Dispatcher, steps: seq<Step>, s: Step)
    requires IsRun(d, steps) && Enabled(Reached(d, steps), s)
    ensures IsRun(d, steps + [s]) && Reached(d, steps + [s]) == Next(Reached(d, steps), s)
    decreases |steps|
  {
    hide Enabled, Next;
    if steps == [] {
      assert steps + [s] == [s] && [s][1..] == [];
    } else {
      assert (steps + [s])[1..] == steps[1..] + [s];
      RunSnoc(Next(d, steps[0]), steps[1..], s);
    }
  }

  // The steps of one turn, by whether there is a job and what happens meanwhile.
  function TurnSteps(hasJob: bool, quit: bool, error: Option<nat>, written: bool): seq<Step> {
    if quit then [Look, Quit, Lose]
    else if error.Some? then [Look, PutBack(error.value), Replay]
    else if !hasJob then [Look, NoJob]
    else [Look, if written then Sent else SendFails]
  }

  class APNSDispatcher {
    var sendQueue: seq<Message>
    var sentMessages: seq<Message>
    var idCounter: nat
    var isRunning: bool
    ghost var pc: Pc
    ghost var added: seq<Message>
    ghost var evicted: seq<Message>
    ghost var dropped: seq<Message>
    ghost var lost: seq<Message>

    ghost function State(): Dispatcher
      reads this
    {
      Dispatcher(sendQueue, sentMessages, idCounter, isRunning, pc, added, evicted, dropped, lost)
    }

    constructor ()
      ensures State() == NEW
    {
      sendQueue, sentMessages, idCounter, isRunning := [], [], 0, true;
      pc, added, evicted, dropped, lost := Connecting, [], [], [], [];
    }

    method Enqueue(msg: Message)
      modifies this`sendQueue
      ensures sendQueue == old(sendQueue) + [msg]
    {
      sendQueue := sendQueue + [msg];
    }

    // A message from the control thread.
    method Submit(msg: Message)
      requires msg.id == 0
      modifies this`sendQueue, this`added
      ensures State() == Next(old(State()), Add(msg))
    {
      Enqueue(msg);
      added := added + [msg];
    }

    // Removes everything up to and including the failed message.
    method RemoveUpTo(failedId: nat)
      modifies this`sentMessages, this`dropped
      ensures sentMessages == After(old(sentMessages), failedId)
      ensures dropped == old(dropped) + UpTo(old(sentMessages), failedId)
    {
      hide UpTo, After;
      ghost var sent, gone, found := sentMessages, [], false;
      while |sentMessages| > 0
        invariant !found && gone + UpTo(sentMessages, failedId) == UpTo(sent, failedId)
        invariant After(sentMessages, failedId) == After(sent, failedId) && dropped == old(dropped)
        decreases |sentMessages|
      {
        var front := sentMessages[0];
        var stop := front.id == failedId;
        FrontStep(sentMessages, failedId);
        assert gone + ([front] + UpTo(sentMessages[1..], failedId)) == gone + [front] + UpTo(sentMessages[1..], failedId);
        gone := gone + [front];
        sentMessages := sentMessages[1..];
        if stop {
          found := true;
          break;
        }
      }
      if !found {
        NoneLeft(failedId);
      }
      assert gone == UpTo(sent, failedId);
      dropped := dropped + gone;
    }

    method ReenqueueAfterError(failedId: nat)
      modifies this`sendQueue, this`sentMessages, this`dropped
      ensures State() == Reenqueue(old(State()), failedId)
    {
      hide Find;
      if |sentMessages| == 0 {
        assert sendQueue + [] == sendQueue && dropped + [] == dropped;
        return;
      }
      ghost var queue := sendQueue;
      RemoveUpTo(failedId);
      ghost var rest, gone := sentMessages, dropped;
      while |sentMessages| > 0
        invariant sendQueue + sentMessages == queue + rest && dropped == gone
        decreases |sentMessages|
      {
        sendQueue := sendQueue + [sentMessages[0]];
        sentMessages := sentMessages[1..];
      }
    }

    // Writes the job or puts it back; the answer is whether the connection is kept.
    method SendJob(job: Message, written: bool) returns (ok: bool)
      requires pc == Holding(Some(job)) && CanSend(State())
      modifies this
      ensures ok == written && State() == Next(old(State()), if written then Sent else SendFails)
    {
      var msg := job;
      if msg.id == 0 {
        idCounter := idCounter + 1;
        msg := msg.(id := idCounter);
      }
      if written {
        sentMessages := sentMessages + [msg];
        if |sentMessages| > SENT_BUFFER_SIZE {
          evicted := evicted + [sentMessages[0]];
          sentMessages := sentMessages[1..];
        }
        pc := Looking;
        return true;
      }
      Enqueue(msg);
      pc := Connecting;
      return false;
    }

    /** One turn of the inner loop: quit tells whether another thread has asked to quit by the
        time the queue has been looked at, error what the connection reports, written how
        sending goes. The turn is a run of the steps above. */
    method Turn(quit: bool, error: Option<nat>, written: bool) returns (goOn: bool, ghost steps: seq<Step>)
      requires pc == Looking && isRunning && idCounter < MAX_INT
      modifies this
      ensures steps == TurnSteps(old(sendQueue) != [], quit, error, written)
      ensures IsRun(old(State()), steps) && State() == Reached(old(State()), steps)
      ensures goOn <==> pc == Looking
    {
      hide IsRun, Reached, Numbered, PushSent, Counter;
      ghost var d := State();
      var job: Option<Message> := None;
      if |sendQueue| > 0 {
        job := Some(sendQueue[0]);
        sendQueue := sendQueue[1..];
      }
      pc := Holding(job);
      steps := Begin(d, Look);
      if quit {
        isRunning := false;
        RunSnoc(d, steps, Step.Quit);
        steps := steps + [Step.Quit];
      }
      if !isRunning {
        RunSnoc(d, steps, Lose);
        steps := steps + [Lose];
        lost := lost + Hand(State());
        pc := Connecting;
        return false, steps;
      }
      if error.Some? {
        RunSnoc(d, steps, PutBack(error.value));
        steps := steps + [PutBack(error.value)];
        if job.Some? {
          Enqueue(job.value);
        } else {
          assert sendQueue + [] == sendQueue;
        }
        pc := Rejected(error.value);
        RunSnoc(d, steps, Replay);
        steps := steps + [Replay];
        if error.value > 0 {
          ReenqueueAfterError(error.value);
        }
        pc := Connecting;
        return false, steps;
      }
      if job.Some? {
        RunSnoc(d, steps, if written then Sent else SendFails);
        steps := steps + [if written then Sent else SendFails];
        goOn := SendJob(job.value, written);
      } else {
        RunSnoc(d, steps, NoJob);
        steps := steps + [NoJob];
        pc := Looking;
        goOn := true;
      }
    }
  }

  lemma Begin(d: Dispatcher, s: Step) returns (steps: seq<Step>)
    requires Enabled(d, s)
    ensures steps == [s] && IsRun(d, steps) && Reached(d, steps) == Next(d, s)
  {
    steps := [s];
    assert steps[1..] == [];
  }

  lemma NoneLeft(id: nat)
    ensures UpTo([], id) == [] && After([], id) == []
  {
  }

  // The front of the buffer goes; it is the last to be dropped if it has the failed id.
  lemma FrontStep(sent: seq<Message>, id: nat)
    requires sent != []
    ensures if sent[0].id == id then UpTo(sent, id) == [sent[0]] && After(sent, id) == sent[1..]
      else UpTo(sent, id) == [sent[0]] + UpTo(sent[1..], id) && After(sent, id) == After(sent[1..], id)
  {
  }
}
