/** Whole runs of the broker: declarations, publishes, consumers, and calls on its queues, in any order. */
module BrokerRuns {
  import opened Sequences
  import opened Memory
  import opened QueueModel
  import opened QueueRuns
  import opened Routing

  datatype Event =
    | DeclareQueue(name: CString, capacity: nat)
    | DeclareExchange(exchangeName: CString, kind: ExchangeType)
    | BindTo(boundExchange: nat, boundQueue: nat, key: Option<CString>)
    | Incoming(exchange: nat, message: Message)  // a client's message arrives and is published
    | Subscribe(client: int, queueName: CString)
    | SetLive(slot: nat, isLive: bool)
    | Call(queue: nat, op: Op)                   // a dequeue, ack, reject or sweep on one queue

  /** The handler's publish: the received message is a new block, its publish makes further ones. */
  function Handle(b: Broker, exchange: nat, message: Message): (p: Routed)
    requires b.Valid() && exchange < |b.exchanges|
    ensures p.broker.Valid()
  {
    Publish(b.(memory := b.memory.Alloc(message)), exchange, |b.memory.blocks|)
  }

  function CallQueue(b: Broker, q: nat, op: Op): (b': Broker)
    requires b.Valid() && q < |b.queues|
    ensures b'.Valid()
  {
    var o := Step(b.queues[q].state, op);
    StepValid(b.queues[q].state, op);
    b.(memory := b.memory.FreeAll(o.released), queues := b.queues[q := NamedQueue(b.queues[q].name, o.next)])
  }

  /** One event; handles to objects that do not exist change nothing. */
  function Apply(b: Broker, e: Event): (b': Broker)
    requires b.Valid()
    ensures b'.Valid()
  {
    match e
    case DeclareQueue(name, capacity) => CreateQueue(b, name, capacity).0
    case DeclareExchange(name, kind) => CreateExchange(b, name, kind).0
    case BindTo(exchange, queue, key) =>
      if exchange < |b.exchanges| && queue < |b.queues| then Bind(b, exchange, queue, key).0 else b
    case Incoming(exchange, message) => if exchange < |b.exchanges| then Handle(b, exchange, message).broker else b
    case Subscribe(client, name) => Register(b, client, name).0
    case SetLive(slot, live) => if slot < |b.live| then b.(live := b.live[slot := live]) else b
    case Call(q, op) => if q < |b.queues| then CallQueue(b, q, op) else b
  }

  function Run(b: Broker, events: seq<Event>): (b': Broker)
    requires b.Valid()
    ensures b'.Valid()
  {
    if events == [] then b else Apply(Run(b, events[..|events| - 1]), events[|events| - 1])
  }

  /** A publish does not touch the delivery tables. */
  lemma IncomingTables(b: Broker, exchange: nat, message: Message, q: nat)
    requires b.Valid() && exchange < |b.exchanges| && q < |b.queues|
    ensures Handle(b, exchange, message).broker.queues[q].state.table == b.queues[q].state.table
  {
    var b1 := b.(memory := b.memory.Alloc(message));
    var b2 := b1.(memory := b1.memory.Alloc(message));
    ExactRouting(b2, exchange, |b.memory.blocks| + 1, q);
  }

  // ---------------------------------------------------------------- registries only grow

  /** What exists keeps its place: names, exchanges, bindings, registrations and blocks. */
  ghost predicate Grows(b: Broker, b': Broker) {
    && b'.limits == b.limits
    && b.exchanges <= b'.exchanges
    && b.bindings <= b'.bindings
    && b.registrations <= b'.registrations
    && b.memory.blocks <= b'.memory.blocks
    && |b'.live| == |b.live|
    && |b.queues| <= |b'.queues|
    && forall q :: 0 <= q < |b.queues| ==> b'.queues[q].name == b.queues[q].name
  }

  lemma ApplyGrows(b: Broker, e: Event)
    requires b.Valid()
    ensures Grows(b, Apply(b, e))
  {
  }

  lemma {:induction false} RunGrows(b: Broker, events: seq<Event>)
    requires b.Valid()
    ensures Grows(b, Run(b, events))
  {
    if events != [] {
      RunGrows(b, events[..|events| - 1]);
      ApplyGrows(Run(b, events[..|events| - 1]), events[|events| - 1]);
    }
  }

  ghost predicate UniqueNames(b: Broker) {
    forall i, j :: 0 <= i < j < |b.queues| ==> b.queues[i].name != b.queues[j].name
  }

  /** Only a declaration can add a queue. */
  lemma ApplyNames(b: Broker, e: Event)
    requires b.Valid()
    ensures !e.DeclareQueue? ==> |Apply(b, e).queues| == |b.queues|
  {
  }

  lemma ApplyUnique(b: Broker, e: Event)
    requires b.Valid() && UniqueNames(b)
    ensures UniqueNames(Apply(b, e))
  {
    ApplyGrows(b, e);
    ApplyNames(b, e);
    if e.DeclareQueue? {
      IndexOfFirst(b.queues, IsQueue(e.name), 0);
      assert forall j :: 0 <= j < IndexOf(b.queues, IsQueue(e.name), 0) ==> !IsQueue(e.name)(b.queues[j]);
    } else {
      hide Apply;
      assert forall q :: 0 <= q < |b.queues| ==> Apply(b, e).queues[q].name == b.queues[q].name;
    }
  }

  /** `broker_create_queue` never makes a second queue of a name, so no run does. */
  lemma {:induction false} NamesStayUnique(b: Broker, events: seq<Event>)
    requires b.Valid() && UniqueNames(b)
    ensures UniqueNames(Run(b, events))
  {
    hide Apply, UniqueNames;
    if events != [] {
      NamesStayUnique(b, events[..|events| - 1]);
      ApplyUnique(Run(b, events[..|events| - 1]), events[|events| - 1]);
    }
  }

  // ---------------------------------------------------------------- what a consumer is sent

  /** The messages sent, or tried, for registration `r`, in order. */
  function SentFor(attempts: seq<Attempt>, r: nat): seq<Message> {
    if attempts == [] then [] else
    var before, last := SentFor(attempts[..|attempts| - 1], r), attempts[|attempts| - 1];
    if last.registration == r then before + [last.message] else before
  }

  lemma {:induction false} SentForConcat(a: seq<Attempt>, b: seq<Attempt>, r: nat)
    ensures SentFor(a + b, r) == SentFor(a, r) + SentFor(b, r)
  {
    if b == [] {
      assert a + b == a;
    } else {
      var n := |b| - 1;
      SentForConcat(a, b[..n], r);
      assert (a + b)[..|a| + n] == a + b[..n];
    }
  }

  lemma SentForSnoc(attempts: seq<Attempt>, a: Attempt, r: nat)
    ensures SentFor(attempts + [a], r) ==
            if a.registration == r then SentFor(attempts, r) + [a.message] else SentFor(attempts, r)
  {
    assert (attempts + [a])[..|attempts|] == attempts;
  }

  /** Forwarding one copy makes exactly one attempt for a live registration of the queue's name, and none for others. */
  lemma {:induction false} OneAttempt(registrations: seq<Registration>, live: seq<bool>, name: CString,
        message: Message, r: nat)
    requires forall i :: 0 <= i < |registrations| ==> registrations[i].client < |live|
    ensures SentFor(AttemptsFor(registrations, live, name, message), r) ==
            if r < |registrations| && registrations[r].queueName == name && live[registrations[r].client] then [message]
            else []
  {
    if registrations != [] {
      var n := |registrations| - 1;
      OneAttempt(registrations[..n], live, name, message, r);
      var last := Attempt(n, registrations[n].client, message);
      SentForSnoc(AttemptsFor(registrations[..n], live, name, message), last, r);
    }
  }

  function Copies(message: Message, n: nat): (ms: seq<Message>)
    ensures |ms| == n
    ensures forall i :: 0 <= i < n ==> ms[i] == message
  {
    seq(n, _ => message)
  }

  /** The registration `r` is live and for queue `q`. */
  predicate Serves(b: Broker, r: nat, q: nat) {
    && r < |b.registrations| && b.registrations[r].client < |b.live| && q < |b.queues|
    && b.registrations[r].queueName == b.queues[q].name
    && b.live[b.registrations[r].client]
  }

  lemma PlaceSends(p: Routed, target: nat, m: Address, r: nat, q: nat)
    requires p.broker.Valid() && target < |p.broker.queues| && m < |p.broker.memory.blocks|
    requires UniqueNames(p.broker) && Serves(p.broker, r, q)
    ensures var message, after := p.broker.memory.blocks[m], Place(p, target, m);
            SentFor(after.broker.attempts, r) ==
            SentFor(p.broker.attempts, r) + Copies(message, |PlacedIn(after.placed, q)| - |PlacedIn(p.placed, q)|)
  {
    hide AttemptsFor, SentFor, PlacedIn;
    var b, message := p.broker, p.broker.memory.blocks[m];
    var more := AttemptsFor(b.registrations, b.live, b.queues[target].name, message);
    SentForConcat(b.attempts, more, r);
    OneAttempt(b.registrations, b.live, b.queues[target].name, message, r);
    PlaceInQueue(p, target, m, q);
    assert target != q ==> b.queues[target].name != b.queues[q].name;
    assert Copies(message, 1) == [message] && Copies(message, 0) == [];
    assert SentFor(b.attempts, r) + [] == SentFor(b.attempts, r);
  }

  lemma {:induction false} RouteSends(b: Broker, exchange: nat, m: Address, n: nat, r: nat, q: nat)
    requires b.Valid() && exchange < |b.exchanges| && m < |b.memory.blocks| && n <= |b.bindings|
    requires UniqueNames(b) && Serves(b, r, q)
    ensures var p := RouteTo(b, exchange, m, n);
            SentFor(p.broker.attempts, r) ==
            SentFor(b.attempts, r) + Copies(b.memory.blocks[m], |PlacedIn(p.placed, q)|)
  {
    var sent, message := SentFor(b.attempts, r), b.memory.blocks[m];
    if n == 0 {
      assert sent + Copies(message, 0) == sent;
    } else {
      RouteSends(b, exchange, m, n - 1, r, q);
      var p := RouteTo(b, exchange, m, n - 1);
      if Applies(b, n - 1, exchange, message.routingKey) {
        PlaceInQueue(p, b.bindings[n - 1].queue, m, q);
        PlaceSends(p, b.bindings[n - 1].queue, m, r, q);
        var k, k' := |PlacedIn(p.placed, q)|, |PlacedIn(RouteTo(b, exchange, m, n).placed, q)|;
        assert sent + Copies(message, k) + Copies(message, k' - k) == sent + Copies(message, k');
      }
    }
  }

  /** What an event enqueues into queue `q` by routing, as contents. */
  function Enqueued(b: Broker, e: Event, q: nat): seq<Message>
    requires b.Valid()
  {
    if e.Incoming? && e.exchange < |b.exchanges|
    then Copies(e.message, |PlacedIn(Handle(b, e.exchange, e.message).placed, q)|)
    else []
  }

  function EnqueuedDuring(b: Broker, events: seq<Event>, q: nat): seq<Message>
    requires b.Valid()
  {
    if events == [] then [] else
    var n := |events| - 1;
    EnqueuedDuring(b, events[..n], q) + Enqueued(Run(b, events[..n]), events[n], q)
  }

  function Contents(memory: Mem, ring: seq<Address>): (ms: seq<Message>)
    requires forall i :: 0 <= i < |ring| ==> ring[i] < |memory.blocks|
  {
    seq(|ring|, i requires 0 <= i < |ring| => memory.blocks[ring[i]])
  }

  lemma ContentsConcat(memory: Mem, memory': Mem, ring: seq<Address>, copies: seq<Address>, message: Message)
    requires memory.blocks <= memory'.blocks
    requires forall i :: 0 <= i < |ring| ==> ring[i] < |memory.blocks|
    requires forall i :: 0 <= i < |copies| ==> copies[i] < |memory'.blocks| && memory'.blocks[copies[i]] == message
    ensures forall i :: 0 <= i < |ring + copies| ==> (ring + copies)[i] < |memory'.blocks|
    ensures Contents(memory', ring + copies) == Contents(memory, ring) + Copies(message, |copies|)
  {
  }

  lemma HandleRing(b: Broker, exchange: nat, message: Message, q: nat)
    requires b.Valid() && exchange < |b.exchanges| && q < |b.queues|
    ensures var p := Handle(b, exchange, message);
            var memory, copies := p.broker.memory, PlacedIn(p.placed, q);
            && b.memory.blocks <= memory.blocks
            && |p.broker.queues| == |b.queues|
            && p.broker.queues[q].state.ring == b.queues[q].state.ring + copies
            && forall i :: 0 <= i < |copies| ==> copies[i] < |memory.blocks| && memory.blocks[copies[i]] == message
  {
    hide RouteTo, PlacedIn;
    var b1 := b.(memory := b.memory.Alloc(message));
    var b2 := b1.(memory := b1.memory.Alloc(message));
    ExactRouting(b2, exchange, |b.memory.blocks| + 1, q);
  }

  /** That is exactly what the ring of `q` gains at its tail. */
  lemma EnqueuedIsGained(b: Broker, exchange: nat, message: Message, q: nat)
    requires b.Valid() && exchange < |b.exchanges| && q < |b.queues|
    requires forall i :: 0 <= i < |b.queues[q].state.ring| ==> b.queues[q].state.ring[i] < |b.memory.blocks|
    ensures var b', ring := Apply(b, Incoming(exchange, message)), b.queues[q].state.ring;
            var ring' := b'.queues[q].state.ring;
            && (forall i :: 0 <= i < |ring'| ==> ring'[i] < |b'.memory.blocks|)
            && Contents(b'.memory, ring') == Contents(b.memory, ring) + Enqueued(b, Incoming(exchange, message), q)
  {
    hide Handle, PlacedIn, Contents, Copies;
    HandleRing(b, exchange, message, q);
    var p := Handle(b, exchange, message);
    ContentsConcat(b.memory, p.broker.memory, b.queues[q].state.ring, PlacedIn(p.placed, q), message);
  }

  /** The consumer stays connected. */
  predicate Disconnects(b: Broker, r: nat, e: Event)
    requires r < |b.registrations|
  {
    e.SetLive? && e.slot == b.registrations[r].client && !e.isLive
  }

  lemma ApplySends(b: Broker, e: Event, r: nat, q: nat)
    requires b.Valid() && UniqueNames(b) && Serves(b, r, q) && !Disconnects(b, r, e)
    ensures SentFor(Apply(b, e).attempts, r) == SentFor(b.attempts, r) + Enqueued(b, e, q)
    ensures Serves(Apply(b, e), r, q)
  {
    ApplyGrows(b, e);
    if e.Incoming? && e.exchange < |b.exchanges| {
      var a := |b.memory.blocks|;
      var b1 := b.(memory := b.memory.Alloc(e.message));
      var b2 := b1.(memory := b1.memory.Alloc(e.message));
      RouteSends(b2, e.exchange, a + 1, |b.bindings|, r, q);
    } else {
      assert SentFor(b.attempts, r) + [] == SentFor(b.attempts, r);
    }
  }

  /**
   * Over every run, for a registration whose client stays connected: what it
   * is sent from then on is what routing enqueues into its queue from then on,
   * message by message and in the same order.
   */
  lemma {:induction false} ConsumerLog(b: Broker, events: seq<Event>, r: nat, q: nat)
    requires b.Valid() && UniqueNames(b) && Serves(b, r, q)
    requires forall i :: 0 <= i < |events| ==> !Disconnects(b, r, events[i])
    ensures SentFor(Run(b, events).attempts, r) == SentFor(b.attempts, r) + EnqueuedDuring(b, events, q)
    ensures Serves(Run(b, events), r, q)
  {
    if events == [] {
      assert SentFor(b.attempts, r) + [] == SentFor(b.attempts, r);
    } else {
      var n := |events| - 1;
      var before := Run(b, events[..n]);
      ConsumerLog(b, events[..n], r, q);
      NamesStayUnique(b, events[..n]);
      RunGrows(b, events[..n]);
      assert !Disconnects(b, r, events[n]);
      ApplySends(before, events[n], r, q);
      Regroup(SentFor(b.attempts, r), EnqueuedDuring(b, events[..n], q), Enqueued(before, events[n], q));
    }
  }

  /**
   * A registration made for the name of a queue serves it exactly when the name
   * fits into 63 characters and the client is live.
   */
  lemma RegistrationServesIff(b: Broker, client: int, q: nat)
    requires b.Valid() && q < |b.queues| && Register(b, client, b.queues[q].name).1
    ensures Serves(Register(b, client, b.queues[q].name).0, |b.registrations|, q) <==>
            |b.queues[q].name| <= 63 && b.live[client]
  {
  }

  /**
   * From the registration on, as long as its client stays connected, what is
   * sent for it is what routing enqueues into the queue, whose name has to fit.
   */
  lemma RegisteredConsumerLog(b: Broker, client: int, q: nat, events: seq<Event>)
    requires b.Valid() && UniqueNames(b) && q < |b.queues| && |b.queues[q].name| <= 63
    requires Register(b, client, b.queues[q].name).1 && b.live[client]
    requires forall i :: 0 <= i < |events| ==> !(events[i].SetLive? && events[i].slot == client && !events[i].isLive)
    ensures var b', r := Register(b, client, b.queues[q].name).0, |b.registrations|;
            SentFor(Run(b', events).attempts, r) == SentFor(b.attempts, r) + EnqueuedDuring(b', events, q)
  {
    var b', r := Register(b, client, b.queues[q].name).0, |b.registrations|;
    RegistrationServesIff(b, client, q);
    assert forall i :: 0 <= i < |events| ==> !Disconnects(b', r, events[i]);
    ConsumerLog(b', events, r, q);
  }

  // ---------------------------------------------------------------- the smallest broker that routes

  lemma RunSnoc(b: Broker, events: seq<Event>, e: Event)
    requires b.Valid()
    ensures Run(b, events + [e]) == Apply(Run(b, events), e)
  {
    assert (events + [e])[..|events|] == events;
  }

  /** The declarations of one exchange and one queue, and a binding between them. */
  function OneQueueSetup(name: CString, capacity: nat): seq<Event> {
    [DeclareExchange([], Fanout), DeclareQueue(name, capacity), BindTo(0, 0, None)]
  }

  /** One queue bound to one fanout exchange. */
  function OneQueue(limits: Limits, name: CString, capacity: nat): Broker {
    Empty(limits).(exchanges := [Exchange([], Fanout)], queues := [NamedQueue(name, Initial(capacity))],
                   bindings := [Binding(0, 0, None)])
  }

  lemma OneQueueReached(limits: Limits, name: CString, capacity: nat)
    requires limits.exchanges > 0 && limits.queues > 0 && limits.bindings > 0 && capacity > 0
    ensures Run(Empty(limits), OneQueueSetup(name, capacity)) == OneQueue(limits, name, capacity)
  {
    var b, setup := Empty(limits), OneQueueSetup(name, capacity);
    RunSnoc(b, setup[..0], setup[0]);
    assert setup[..1] == setup[..0] + [setup[0]];
    RunSnoc(b, setup[..1], setup[1]);
    assert setup[..2] == setup[..1] + [setup[1]];
    RunSnoc(b, setup[..2], setup[2]);
    assert setup == setup[..2] + [setup[2]];
  }

  /** One fanout exchange, one binding and one queue, whatever is in it. */
  predicate OneFanout(b: Broker) {
    b.Valid() && b.exchanges == [Exchange([], Fanout)] && b.bindings == [Binding(0, 0, None)] && |b.queues| == 1
  }

  lemma FanoutRoutes(b: Broker, m: Address)
    requires OneFanout(b) && m < |b.memory.blocks| && !b.queues[0].state.Full()
    ensures var p, clone := RouteTo(b, 0, m, 1), |b.memory.blocks|;
            && p.placed == [Placement(0, clone)]
            && p.broker.queues == [NamedQueue(b.queues[0].name, Append(b.queues[0].state, clone))]
            && p.broker.memory == b.memory.Alloc(b.memory.blocks[m])
  {
    assert RouteTo(b, 0, m, 0) == Routed(b, []);
    assert RouteTo(b, 0, m, 1) == Place(Routed(b, []), 0, m);
    hide AttemptsFor, RouteTo;
  }

  /**
   * A publish there makes three blocks: the received message, the routing clone,
   * and the one that is put into the queue.
   */
  lemma FanoutPublish(b: Broker, message: Message)
    requires OneFanout(b) && !b.queues[0].state.Full()
    ensures var b', q := Apply(b, Incoming(0, message)), b.queues[0];
            && OneFanout(b')
            && b'.queues == [NamedQueue(q.name, Append(q.state, |b.memory.blocks| + 2))]
            && b'.memory == Mem(b.memory.blocks + [message, message, message], b.memory.frees)
  {
    var b2 := b.(memory := b.memory.Alloc(message).Alloc(message));
    FanoutRoutes(b2, |b.memory.blocks| + 1);
    assert b2.memory.Alloc(message).blocks == b.memory.blocks + [message, message, message];
    hide RouteTo;
  }

  lemma OneQueuePublish(limits: Limits, name: CString, capacity: nat, message: Message)
    requires capacity > 0
    ensures var b := Apply(OneQueue(limits, name, capacity), Incoming(0, message));
            && OneFanout(b)
            && b.queues == [NamedQueue(name, Append(Initial(capacity), 2))]
            && b.memory == Mem([message, message, message], multiset{})
  {
    hide Apply;
    FanoutPublish(OneQueue(limits, name, capacity), message);
  }

  lemma FanoutCall(b: Broker, op: Op)
    requires OneFanout(b)
    ensures var b', q := Apply(b, Call(0, op)), b.queues[0];
            && OneFanout(b')
            && b'.queues == [NamedQueue(q.name, Next(q.state, op))]
            && b'.memory == b.memory.FreeAll(Step(q.state, op).released)
  {
    hide Step;
  }

  /** A name of 64 characters is one too long. */
  lemma LongNameIsNotServed(limits: Limits)
    requires limits.exchanges > 0 && limits.queues > 0 && limits.bindings > 0 && limits.connections > 0
    ensures var name := seq(64, _ => 'q' as CChar);
            var b := Apply(Run(Empty(limits), OneQueueSetup(name, 1)), SetLive(0, true));
            && b.queues == [NamedQueue(name, Initial(1))]
            && Register(b, 0, name).1
            && !Serves(Register(b, 0, name).0, |b.registrations|, 0)
  {
    var name := seq(64, _ => 'q' as CChar);
    OneQueueReached(limits, name, 1);
    RegistrationServesIff(Apply(OneQueue(limits, name, 1), SetLive(0, true)), 0, 0);
  }
}
