/** Every queue of a broker run is a queue run, so the laws of queue runs hold inside the broker. */
module BrokerQueues {
  import opened Sequences
  import opened Memory
  import opened QueueModel
  import opened QueueRuns
  import opened QueueOrder
  import opened QueueBounds
  import opened Routing
  import opened BrokerRuns
  import opened Provenance

  // ---------------------------------------------------------------- the operations of one queue

  function Enqueues(copies: seq<Address>): (ops: seq<Op>)
    ensures |ops| == |copies|
  {
    seq(|copies|, i requires 0 <= i < |copies| => Enqueue(copies[i]))
  }

  /** What an event does to queue `q`, if that exists. */
  function OpsBy(b: Broker, e: Event, q: nat): seq<Op>
    requires b.Valid()
  {
    if q >= |b.queues| then [] else
    match e
    case Incoming(exchange, message) =>
      if exchange < |b.exchanges| then Enqueues(PlacedIn(Handle(b, exchange, message).placed, q)) else []
    case Call(i, op) => if i == q then [op] else []
    case _ => []
  }

  function OpsOf(b: Broker, events: seq<Event>, q: nat): seq<Op>
    requires b.Valid()
  {
    if events == [] then [] else
    var n := |events| - 1;
    OpsOf(b, events[..n], q) + OpsBy(Run(b, events[..n]), events[n], q)
  }

  /** The queue at the start of the run, or when the run declared it. */
  function FirstState(b: Broker, b': Broker, q: nat): State
    requires q < |b'.queues|
  {
    if q < |b.queues| then b.queues[q].state else Initial(b'.queues[q].state.capacity)
  }

  lemma {:induction false} AfterEnqueues(s: State, copies: seq<Address>)
    requires |s.ring| + |copies| <= s.capacity
    ensures After(s, Enqueues(copies)) == s.(ring := s.ring + copies)
  {
    if copies == [] {
      assert s.ring + [] == s.ring;
    } else {
      var n := |copies| - 1;
      AfterEnqueues(s, copies[..n]);
      assert Enqueues(copies) == Enqueues(copies[..n]) + [Enqueue(copies[n])];
      AfterSnoc(s, Enqueues(copies[..n]), Enqueue(copies[n]));
      assert copies == copies[..n] + [copies[n]];
      Regroup(s.ring, copies[..n], [copies[n]]);
    }
  }

  lemma HandleQueue(b: Broker, exchange: nat, message: Message, q: nat)
    requires b.Valid() && exchange < |b.exchanges| && q < |b.queues|
    ensures var p, s := Handle(b, exchange, message), b.queues[q].state;
            var copies := PlacedIn(p.placed, q);
            && |p.broker.queues| == |b.queues|
            && p.broker.queues[q].state == s.(ring := s.ring + copies)
            && |s.ring| + |copies| <= s.capacity
  {
    var b1 := b.(memory := b.memory.Alloc(message));
    var b2 := b1.(memory := b1.memory.Alloc(message));
    ExactRouting(b2, exchange, |b.memory.blocks| + 1, q);
  }

  lemma CallQueueState(b: Broker, i: nat, op: Op, q: nat)
    requires b.Valid() && q < |b.queues|
    ensures Apply(b, Call(i, op)).queues[q].state == if i == q then Next(b.queues[q].state, op) else b.queues[q].state
  {
    hide Step;
  }

  /** One event is, for a queue that exists, the operations `OpsBy` lists. */
  lemma ApplyQueue(b: Broker, e: Event, q: nat)
    requires b.Valid() && q < |b.queues| <= |Apply(b, e).queues|
    ensures Apply(b, e).queues[q].state == After(b.queues[q].state, OpsBy(b, e, q))
  {
    var s := b.queues[q].state;
    AfterNone(s, []);
    match e
    case Incoming(exchange, message) =>
      if exchange < |b.exchanges| {
        HandleQueue(b, exchange, message, q);
        AfterEnqueues(s, PlacedIn(Handle(b, exchange, message).placed, q));
        hide Handle, After, PlacedIn;
      }
    case Call(i, op) =>
      CallQueueState(b, i, op, q);
      AfterSnoc(s, [], op);
      assert [] + [op] == [op];
      hide Apply, Next;
    case _ =>
      hide After;
  }

  /** A queue that an event adds is new. */
  lemma ApplyNewQueue(b: Broker, e: Event, q: nat)
    requires b.Valid() && |b.queues| <= q < |Apply(b, e).queues|
    ensures var s := Apply(b, e).queues[q].state; s == Initial(s.capacity)
  {
    ApplyNames(b, e);
  }

  /**
   * For each queue, every run of the broker is a run of the queue: the copies
   * routed to it are enqueued, and the calls on it made.
   */
  lemma {:induction false} QueueRun(b: Broker, events: seq<Event>, q: nat)
    requires b.Valid() && q < |Run(b, events).queues|
    ensures Run(b, events).queues[q].state == After(FirstState(b, Run(b, events), q), OpsOf(b, events, q))
  {
    hide Apply, Next;
    if events != [] {
      var n := |events| - 1;
      var before := Run(b, events[..n]);
      ApplyGrows(before, events[n]);
      RunGrows(b, events[..n]);
      if q < |before.queues| {
        QueueRun(b, events[..n], q);
        ApplyQueue(before, events[n], q);
        var first := FirstState(b, before, q);
        AfterConcat(first, OpsOf(b, events[..n], q), OpsBy(before, events[n], q));
        AfterValid(before.queues[q].state, OpsBy(before, events[n], q));
      } else {
        ApplyNewQueue(before, events[n], q);
        NoOpsBefore(b, events[..n], q);
      }
    }
  }

  lemma {:induction false} NoOpsBefore(b: Broker, events: seq<Event>, q: nat)
    requires b.Valid() && |Run(b, events).queues| <= q
    ensures OpsOf(b, events, q) == []
  {
    if events != [] {
      var n := |events| - 1;
      ApplyGrows(Run(b, events[..n]), events[n]);
      NoOpsBefore(b, events[..n], q);
    }
  }

  /**
   * So the laws of queue runs hold for every queue a broker ever declared: tags
   * count its deliveries and sort its table, and the table grows with the peak.
   */
  lemma QueueLaws(limits: Limits, events: seq<Event>, q: nat)
    requires q < |Run(Empty(limits), events).queues|
    ensures var s, ops := Run(Empty(limits), events).queues[q].state, OpsOf(Empty(limits), events, q);
            var first := Initial(s.capacity);
            && s == After(first, ops)
            && (Books(first, ops).deliveries < 0xFFFF_FFFF_FFFF_FFFF ==>
                  TagsOrdered(s) && s.nextTag == Books(first, ops).deliveries + 1)
            && |DeliveredTags(first, ops)| == Books(first, ops).deliveries
            && (forall i :: 0 <= i < |DeliveredTags(first, ops)| ==>
                  DeliveredTags(first, ops)[i] == (i + 1) % 0x1_0000_0000_0000_0000)
            && (s.tableCapacity == 100 || s.tableCapacity <= 2 * (PeakEntries(first, ops) - 1))
            && (Conserved(first, ops) <==> !EverSettlesMarked(first, ops))
            && (AllDelivered(first, ops) + s.ring == AllAccepted(first, ops) <==> !EverPutsBack(first, ops))
  {
    var s, ops := Run(Empty(limits), events).queues[q].state, OpsOf(Empty(limits), events, q);
    QueueRun(Empty(limits), events, q);
    TagOrder(s.capacity, ops);
    TagsCount(s.capacity, ops);
    TableGrowthBound(s.capacity, ops);
    ConservationIff(Initial(s.capacity), ops);
    FirstInFirstOutIff(Initial(s.capacity), ops);
    assert [] + AllAccepted(Initial(s.capacity), ops) == AllAccepted(Initial(s.capacity), ops);
  }

  // ---------------------------------------------------------------- what is pulled from a queue

  /** Every message a queue holds is allocated. */
  ghost predicate Backed(b: Broker) {
    forall q, a: Address :: 0 <= q < |b.queues| && Holds(b.queues[q].state, a) ==> a < |b.memory.blocks|
  }

  lemma ApplyBacked(b: Broker, e: Event)
    requires b.Valid() && Backed(b) && !(e.Call? && e.op.Enqueue?)
    ensures Backed(Apply(b, e))
  {
    var b' := Apply(b, e);
    ApplyGrows(b, e);
    forall q, a: Address | 0 <= q < |b'.queues| && Holds(b'.queues[q].state, a)
      ensures a < |b'.memory.blocks|
    {
      if q >= |b.queues| {
        assert false;
      } else {
        if e.Call? && q == e.queue {
          StepHolds(b.queues[q].state, e.op, a);
        }
        if e.Incoming? && e.exchange < |b.exchanges| {
          IncomingHolds(b, e.exchange, e.message, q, a);
          HandleRing(b, e.exchange, e.message, q);
        }
      }
    }
  }

  lemma {:induction false} RunBacked(b: Broker, events: seq<Event>)
    requires b.Valid() && Backed(b) && ByPublishing(events)
    ensures Backed(Run(b, events))
  {
    if events != [] {
      RunBacked(b, events[..|events| - 1]);
      ApplyBacked(Run(b, events[..|events| - 1]), events[|events| - 1]);
    }
  }

  predicate Pulls(b: Broker, e: Event, q: nat) {
    e.Call? && e.queue == q < |b.queues| && Delivers(b.queues[q].state, e.op)
  }

  /** The message that a dequeue from queue `q` delivers. */
  function PulledBy(b: Broker, e: Event, q: nat): seq<Message>
    requires b.Valid() && Backed(b)
  {
    if Pulls(b, e, q) then
      var ring := b.queues[q].state.ring;
      assert Holds(b.queues[q].state, ring[0]);
      [b.memory.blocks[ring[0]]]
    else []
  }

  function PulledDuring(b: Broker, events: seq<Event>, q: nat): seq<Message>
    requires b.Valid() && Backed(b) && ByPublishing(events)
  {
    if events == [] then [] else
    var n := |events| - 1;
    RunBacked(b, events[..n]);
    PulledDuring(b, events[..n], q) + PulledBy(Run(b, events[..n]), events[n], q)
  }

  function RingContents(b: Broker, q: nat): seq<Message>
    requires b.Valid() && Backed(b) && q < |b.queues|
  {
    var ring := b.queues[q].state.ring;
    assert forall i :: 0 <= i < |ring| ==> Holds(b.queues[q].state, ring[i]);
    Contents(b.memory, ring)
  }

  predicate PutsBackInto(b: Broker, e: Event, q: nat) {
    e.Call? && e.queue == q < |b.queues| && PutsBack(b.queues[q].state, e.op)
  }

  predicate EverPutsBackInto(b: Broker, events: seq<Event>, q: nat)
    requires b.Valid()
  {
    events != [] &&
    var n := |events| - 1;
    EverPutsBackInto(b, events[..n], q) || PutsBackInto(Run(b, events[..n]), events[n], q)
  }

  lemma CallPulls(b: Broker, op: Op, q: nat)
    requires b.Valid() && Backed(b) && q < |b.queues| && !op.Enqueue?
    ensures var e := Call(q, op);
            var b' := Apply(b, e);
            && Backed(b') && |b'.queues| == |b.queues|
            && (!PutsBackInto(b, e, q) ==> PulledBy(b, e, q) + RingContents(b', q) == RingContents(b, q))
            && |PulledBy(b, e, q)| + |RingContents(b', q)| >= |RingContents(b, q)| + Bit(PutsBackInto(b, e, q))
  {
    var e, s := Call(q, op), b.queues[q].state;
    ApplyBacked(b, e);
    StepInOrder(s, op);
    CallQueueState(b, q, op, q);
    var ring, ring' := s.ring, Next(s, op).ring;
    if !PutsBackInto(b, e, q) {
      assert DeliveredBy(s, op) + ring' == ring + [];
      assert ring + [] == ring;
    }
    hide Step, PutsBack;
  }

  lemma ApplyPulls(b: Broker, e: Event, q: nat)
    requires b.Valid() && Backed(b) && q < |b.queues| && !(e.Call? && e.op.Enqueue?)
    ensures var b' := Apply(b, e);
            && Backed(b') && |b.queues| <= |b'.queues|
            && (!PutsBackInto(b, e, q) ==>
                  PulledBy(b, e, q) + RingContents(b', q) == RingContents(b, q) + Enqueued(b, e, q))
            && |PulledBy(b, e, q)| + |RingContents(b', q)| >=
               |RingContents(b, q)| + |Enqueued(b, e, q)| + Bit(PutsBackInto(b, e, q))
  {
    ApplyBacked(b, e);
    ApplyGrows(b, e);
    if e.Call? && e.queue == q {
      CallPulls(b, e.op, q);
    } else if e.Incoming? && e.exchange < |b.exchanges| {
      assert forall i :: 0 <= i < |b.queues[q].state.ring| ==> Holds(b.queues[q].state, b.queues[q].state.ring[i]);
      EnqueuedIsGained(b, e.exchange, e.message, q);
    } else {
      ApplyQueue(b, e, q);
    }
  }

  lemma {:induction false} RunPulls(b: Broker, events: seq<Event>, q: nat)
    requires b.Valid() && Backed(b) && ByPublishing(events) && q < |b.queues|
    ensures Backed(Run(b, events)) && |b.queues| <= |Run(b, events).queues|
    ensures var pulled, ring, ring' := PulledDuring(b, events, q), RingContents(b, q), RingContents(Run(b, events), q);
            && (!EverPutsBackInto(b, events, q) ==> pulled + ring' == ring + EnqueuedDuring(b, events, q))
            && |pulled| + |ring'| >= |ring| + |EnqueuedDuring(b, events, q)| + Bit(EverPutsBackInto(b, events, q))
  {
    hide Apply, PutsBackInto, PulledBy, RingContents, Enqueued, Backed;
    RunBacked(b, events);
    RunGrows(b, events);
    if events == [] {
      assert [] + RingContents(b, q) == RingContents(b, q) + [];
    } else {
      var n := |events| - 1;
      var before := Run(b, events[..n]);
      RunPulls(b, events[..n], q);
      RunBacked(b, events[..n]);
      ApplyPulls(before, events[n], q);
      Regroup(PulledDuring(b, events[..n], q), PulledBy(before, events[n], q), RingContents(Run(b, events), q));
      Regroup(PulledDuring(b, events[..n], q), RingContents(before, q), Enqueued(before, events[n], q));
      Regroup(RingContents(b, q), EnqueuedDuring(b, events[..n], q), Enqueued(before, events[n], q));
    }
  }

  /**
   * First in, first out, as contents: what dequeues deliver from a queue,
   * followed by its ring, is the ring at the start followed by what routing
   * enqueued, exactly when no call on that queue puts a message back.
   */
  lemma PulledInOrderIff(b: Broker, events: seq<Event>, q: nat)
    requires b.Valid() && Backed(b) && ByPublishing(events) && q < |b.queues|
    ensures Backed(Run(b, events)) && |b.queues| <= |Run(b, events).queues|
    ensures
      (PulledDuring(b, events, q) + RingContents(Run(b, events), q) ==
       RingContents(b, q) + EnqueuedDuring(b, events, q))
      <==> !EverPutsBackInto(b, events, q)
  {
    RunPulls(b, events, q);
    var pulled, ring, ring' := PulledDuring(b, events, q), RingContents(b, q), RingContents(Run(b, events), q);
    assert |pulled + ring'| == |pulled| + |ring'|;
    assert |ring + EnqueuedDuring(b, events, q)| == |ring| + |EnqueuedDuring(b, events, q)|;
    hide *;
  }

  /**
   * The broker both pushes and keeps: from an empty queue on, what is sent for
   * a connected registration is also what dequeues deliver and the ring holds.
   */
  lemma PushedIsKept(b: Broker, events: seq<Event>, r: nat, q: nat)
    requires b.Valid() && Backed(b) && ByPublishing(events) && UniqueNames(b) && Serves(b, r, q)
    requires b.queues[q].state.ring == [] && !EverPutsBackInto(b, events, q)
    requires forall i :: 0 <= i < |events| ==> !Disconnects(b, r, events[i])
    ensures Backed(Run(b, events)) && |b.queues| <= |Run(b, events).queues|
    ensures SentFor(Run(b, events).attempts, r) ==
            SentFor(b.attempts, r) + (PulledDuring(b, events, q) + RingContents(Run(b, events), q))
  {
    PulledInOrderIff(b, events, q);
    ConsumerLog(b, events, r, q);
    assert RingContents(b, q) + EnqueuedDuring(b, events, q) == EnqueuedDuring(b, events, q);
  }
}
