/** What the registries hold, and which bindings a message is routed by, in the words of the exchange types. */
module Bindings {
  import opened Sequences
  import opened Memory
  import opened Topics
  import opened QueueModel
  import opened QueueRuns
  import opened Routing
  import opened BrokerRuns

  // ---------------------------------------------------------------- which bindings count

  /**
   * The meaning of a binding: a fanout exchange takes any, a direct one those
   * with the routing key itself as key, a topic one those whose key matches word
   * by word, or, for keys the matcher does not support, equals the routing key.
   */
  predicate Meant(kind: ExchangeType, key: Option<CString>, routingKey: CString) {
    match kind
    case Fanout => true
    case Direct => key == Some(routingKey)
    case Topic =>
      match key
      case None => false
      case Some(pattern) => if Supported(pattern) then Matches(pattern, routingKey) else pattern == routingKey
  }

  /** The bindings of the exchange, among the first `n`, that lead such a message to queue `q`. */
  function Leading(b: Broker, exchange: nat, routingKey: CString, q: nat, n: nat): set<nat>
    requires exchange < |b.exchanges| && n <= |b.bindings|
  {
    set i: nat | i < n && b.bindings[i].exchange == exchange && b.bindings[i].queue == q
                 && Meant(b.exchanges[exchange].kind, b.bindings[i].key, routingKey)
  }

  lemma AcceptsMeant(kind: ExchangeType, key: Option<CString>, routingKey: CString)
    ensures Accepts(kind, key, routingKey) <==> Meant(kind, key, routingKey)
  {
    if kind.Topic? && key.Some? {
      MatcherIff(key.value, routingKey);
    }
  }

  lemma LeadingNext(b: Broker, exchange: nat, routingKey: CString, q: nat, n: nat)
    requires exchange < |b.exchanges| && n < |b.bindings|
    ensures var r, leading := b.bindings[n], Leading(b, exchange, routingKey, q, n);
            && n !in leading
            && Leading(b, exchange, routingKey, q, n + 1) ==
               if r.exchange == exchange && r.queue == q && Meant(b.exchanges[exchange].kind, r.key, routingKey)
               then leading + {n} else leading
  {
    hide Meant;
  }

  lemma {:induction false} MatchingIsLeading(b: Broker, exchange: nat, routingKey: CString, q: nat, n: nat)
    requires exchange < |b.exchanges| && n <= |b.bindings|
    ensures Matching(b, exchange, routingKey, q, n) == |Leading(b, exchange, routingKey, q, n)|
  {
    hide Accepts, Meant, Leading;
    if n == 0 {
      LeadingNone(b, exchange, routingKey, q);
    } else {
      MatchingIsLeading(b, exchange, routingKey, q, n - 1);
      LeadingNext(b, exchange, routingKey, q, n - 1);
      AcceptsMeant(b.exchanges[exchange].kind, b.bindings[n - 1].key, routingKey);
    }
  }

  lemma LeadingNone(b: Broker, exchange: nat, routingKey: CString, q: nat)
    requires exchange < |b.exchanges|
    ensures Leading(b, exchange, routingKey, q, 0) == {}
  {
  }

  /** All bindings that lead such a message to queue `q`. */
  function LeadingTo(b: Broker, exchange: nat, routingKey: CString, q: nat): set<nat>
    requires exchange < |b.exchanges|
  {
    Leading(b, exchange, routingKey, q, |b.bindings|)
  }

  /** For the first `k` queues: min(free slots, bindings that lead there), added up. */
  function Reached(b: Broker, exchange: nat, routingKey: CString, k: nat): int
    requires exchange < |b.exchanges| && k <= |b.queues|
  {
    if k == 0 then 0 else
    var s := b.queues[k - 1].state;
    Reached(b, exchange, routingKey, k - 1) + Min(s.capacity - |s.ring|, |LeadingTo(b, exchange, routingKey, k - 1)|)
  }

  lemma {:induction false} DeliverableIsReached(b: Broker, exchange: nat, routingKey: CString, k: nat)
    requires exchange < |b.exchanges| && k <= |b.queues|
    ensures Deliverable(b, exchange, routingKey, k) == Reached(b, exchange, routingKey, k)
  {
    hide Leading, Matching;
    if k > 0 {
      DeliverableIsReached(b, exchange, routingKey, k - 1);
      MatchingIsLeading(b, exchange, routingKey, k - 1, |b.bindings|);
    }
  }

  /**
   * Routing by meaning, for every exchange type and every list of bindings:
   * queue `q` gets min(free slots, bindings that lead there) copies, each equal to
   * the message, and the answer is the sum over all queues.
   */
  lemma RoutedByMeaning(b: Broker, exchange: nat, m: Address, q: nat)
    requires b.Valid() && exchange < |b.exchanges| && m < |b.memory.blocks| && q < |b.queues|
    ensures var p, s, message := Route(b, exchange, m), b.queues[q].state, b.memory.blocks[m];
            var ring := p.broker.queues[q].state.ring;
            && |ring| == |s.ring| + Min(s.capacity - |s.ring|, |LeadingTo(b, exchange, message.routingKey, q)|)
            && s.ring <= ring
            && (forall i :: |s.ring| <= i < |ring| ==>
                  ring[i] < |p.broker.memory.blocks| && p.broker.memory.blocks[ring[i]] == message)
            && |p.placed| == Reached(b, exchange, message.routingKey, |b.queues|)
  {
    var p, routingKey := Route(b, exchange, m), b.memory.blocks[m].routingKey;
    ExactRouting(b, exchange, m, q);
    MatchingIsLeading(b, exchange, routingKey, q, |b.bindings|);
    DeliverableIsReached(b, exchange, routingKey, |b.queues|);
    hide Route, Leading, Matching, Deliverable, Reached, PlacedIn;
    var ring, copies := b.queues[q].state.ring, PlacedIn(p.placed, q);
    assert forall i :: |ring| <= i < |ring + copies| ==> (ring + copies)[i] == copies[i - |ring|];
  }

  lemma {:induction false} ReachedIff(b: Broker, exchange: nat, routingKey: CString, k: nat)
    requires b.Valid() && exchange < |b.exchanges| && k <= |b.queues|
    ensures Reached(b, exchange, routingKey, k) >= 0
    ensures Reached(b, exchange, routingKey, k) > 0 <==>
            exists q :: 0 <= q < k && !b.queues[q].state.Full() && LeadingTo(b, exchange, routingKey, q) != {}
  {
    hide Leading;
    if k > 0 {
      ReachedIff(b, exchange, routingKey, k - 1);
      var leading := LeadingTo(b, exchange, routingKey, k - 1);
      assert leading != {} <==> |leading| > 0;
    }
  }

  /** A publish is answered with 1 exactly if some queue with a free slot has a binding that leads there. */
  lemma PublishAnswersIff(b: Broker, exchange: nat, m: Address)
    requires b.Valid() && exchange < |b.exchanges| && m < |b.memory.blocks|
    ensures var routingKey := b.memory.blocks[m].routingKey;
            Publish(b, exchange, m).placed != [] <==>
            exists q :: 0 <= q < |b.queues| && !b.queues[q].state.Full() && LeadingTo(b, exchange, routingKey, q) != {}
  {
    var clone, routingKey := |b.memory.blocks|, b.memory.blocks[m].routingKey;
    var b1 := b.(memory := b.memory.Alloc(b.memory.blocks[m]));
    RouteToTotal(b1, exchange, clone, |b.bindings|);
    TotalIsDeliverable(b1, exchange, clone, |b.queues|);
    SameDeliverable(b, b1, exchange, routingKey, |b.queues|);
    DeliverableIsReached(b, exchange, routingKey, |b.queues|);
    ReachedIff(b, exchange, routingKey, |b.queues|);
    hide RouteTo, Leading, Deliverable, Reached, TotalPlaced;
  }

  // ---------------------------------------------------------------- what a bind does

  lemma {:induction false} SameLeading(b: Broker, b': Broker, exchange: nat, routingKey: CString, q: nat, n: nat)
    requires b'.exchanges == b.exchanges && b.bindings <= b'.bindings && exchange < |b.exchanges| && n <= |b.bindings|
    ensures Leading(b', exchange, routingKey, q, n) == Leading(b, exchange, routingKey, q, n)
  {
    hide Meant;
    assert forall i :: 0 <= i < n ==> b'.bindings[i] == b.bindings[i];
  }

  /**
   * A bind succeeds exactly below the limit, and otherwise changes nothing. It
   * leads one more binding from its exchange to its queue, for the messages that
   * its kind and key mean, and changes no other count.
   */
  lemma BindLeads(b: Broker, exchange: nat, queue: nat, key: Option<CString>, x: nat, routingKey: CString, q: nat)
    requires b.Valid() && exchange < |b.exchanges| && queue < |b.queues| && x < |b.exchanges|
    ensures var (b', ok) := Bind(b, exchange, queue, key);
            && (ok <==> |b.bindings| < b.limits.bindings)
            && (!ok ==> b' == b)
            && (ok ==>
                  && b'.Valid() && b' == b.(bindings := b'.bindings)
                  && |LeadingTo(b', x, routingKey, q)| == |LeadingTo(b, x, routingKey, q)|
                     + Bit(x == exchange && q == queue && Meant(b.exchanges[x].kind, key, routingKey)))
  {
    hide Meant, Leading;
    var (b', ok) := Bind(b, exchange, queue, key);
    if ok {
      SameLeading(b, b', x, routingKey, q, |b.bindings|);
      LeadingNext(b', x, routingKey, q, |b.bindings|);
    }
  }

  /**
   * So a publish after a bind puts one more copy into that queue, while there is
   * room, and as many as before into others.
   */
  lemma BindThenRoute(b: Broker, exchange: nat, queue: nat, key: Option<CString>, x: nat, m: Address, q: nat)
    requires b.Valid() && exchange < |b.exchanges| && queue < |b.queues| && x < |b.exchanges|
    requires m < |b.memory.blocks| && q < |b.queues| && Bind(b, exchange, queue, key).1
    ensures var b', s, routingKey := Bind(b, exchange, queue, key).0, b.queues[q].state, b.memory.blocks[m].routingKey;
            b'.Valid() &&
            var more := Bit(x == exchange && q == queue && Meant(b.exchanges[x].kind, key, routingKey));
            |Route(b', x, m).broker.queues[q].state.ring| ==
            |s.ring| + Min(s.capacity - |s.ring|, |LeadingTo(b, x, routingKey, q)| + more)
  {
    var b', routingKey := Bind(b, exchange, queue, key).0, b.memory.blocks[m].routingKey;
    BindLeads(b, exchange, queue, key, x, routingKey, q);
    RoutedByMeaning(b', x, m, q);
    hide Route, LeadingTo, Meant;
  }

  // ---------------------------------------------------------------- the registries

  /**
   * A declaration answers the place of the queue of that name: the old one,
   * unchanged, or a new empty one of the capacity that is asked for, which there
   * is exactly below the limit and for a capacity that is not 0.
   */
  lemma DeclareQueueIff(b: Broker, name: CString, capacity: nat)
    ensures var (b', index) := CreateQueue(b, name, capacity);
            var known := exists i :: 0 <= i < |b.queues| && b.queues[i].name == name;
            && (index.Some? <==> known || (|b.queues| < b.limits.queues && capacity > 0))
            && (index.Some? ==> index.value < |b'.queues| && b'.queues[index.value].name == name)
            && (known || index.None? ==> b' == b)
            && (!known && index.Some? ==>
                  && index.value == |b.queues|
                  && b' == b.(queues := b.queues + [NamedQueue(name, State(capacity, [], [], 100, 1))]))
  {
    IndexOfFirst(b.queues, IsQueue(name), 0);
    var found := IndexOf(b.queues, IsQueue(name), 0);
    assert forall j :: 0 <= j < found ==> !IsQueue(name)(b.queues[j]);
  }

  /** The same for exchanges: an old one keeps its type, a new one has the type that is asked for. */
  lemma DeclareExchangeIff(b: Broker, name: CString, kind: ExchangeType)
    ensures var (b', index) := CreateExchange(b, name, kind);
            var known := exists i :: 0 <= i < |b.exchanges| && b.exchanges[i].name == name;
            && (index.Some? <==> known || |b.exchanges| < b.limits.exchanges)
            && (index.Some? ==> index.value < |b'.exchanges| && b'.exchanges[index.value].name == name)
            && (known || index.None? ==> b' == b)
            && (!known && index.Some? ==>
                  index.value == |b.exchanges| && b' == b.(exchanges := b.exchanges + [Exchange(name, kind)]))
  {
    IndexOfFirst(b.exchanges, IsExchange(name), 0);
    var found := IndexOf(b.exchanges, IsExchange(name), 0);
    assert forall j :: 0 <= j < found ==> !IsExchange(name)(b.exchanges[j]);
  }

  /**
   * A registration succeeds exactly for an existing slot and below the limit. It
   * serves the queue named by the first 63 characters of the name, and no other.
   */
  lemma RegisterServesIff(b: Broker, client: int, name: CString, q: nat)
    requires b.Valid() && q < |b.queues|
    ensures var (b', ok) := Register(b, client, name);
            && (ok <==> 0 <= client < |b.live| && |b.registrations| < b.limits.connections)
            && (!ok ==> b' == b)
            && (ok ==> b' == b.(registrations := b'.registrations)
                       && b.registrations <= b'.registrations && |b'.registrations| == |b.registrations| + 1)
            && (ok ==> (Serves(b', |b.registrations|, q) <==>
                          b.live[client] && b.queues[q].name == if |name| <= 63 then name else name[..63]))
  {
  }

  /** A name of 63 characters is served, and a longer one serves the queue named by its first 63. */
  lemma LongNamesServe(b: Broker, client: int, name: CString, q: nat)
    requires b.Valid() && q < |b.queues| && Register(b, client, name).1 && b.live[client]
    requires |name| >= 63 && b.queues[q].name == name[..63]
    ensures Serves(Register(b, client, name).0, |b.registrations|, q)
  {
    RegisterServesIff(b, client, name, q);
    assert |name| == 63 ==> name[..63] == name;
  }

  predicate WithinLimits(b: Broker) {
    && |b.queues| <= b.limits.queues
    && |b.exchanges| <= b.limits.exchanges
    && |b.bindings| <= b.limits.bindings
    && |b.registrations| <= b.limits.connections
    && |b.live| == b.limits.connections
  }

  lemma ApplyWithinLimits(b: Broker, e: Event)
    requires b.Valid() && WithinLimits(b)
    ensures WithinLimits(Apply(b, e))
  {
    hide Handle, CallQueue;
    match e
    case DeclareQueue(name, capacity) => DeclareQueueIff(b, name, capacity);
    case DeclareExchange(name, kind) => DeclareExchangeIff(b, name, kind);
    case Incoming(exchange, message) =>
      if exchange < |b.exchanges| {
        HandleSetup(b, exchange, message);
      }
    case Call(q, op) =>
      if q < |b.queues| {
        CallSetup(b, q, op);
      }
    case _ =>
  }

  lemma HandleSetup(b: Broker, exchange: nat, message: Message)
    requires b.Valid() && exchange < |b.exchanges|
    ensures SameSetup(b, Handle(b, exchange, message).broker)
  {
  }

  lemma CallSetup(b: Broker, q: nat, op: Op)
    requires b.Valid() && q < |b.queues|
    ensures SameSetup(b, CallQueue(b, q, op))
  {
  }

  /** No run ever exceeds the sizes of the registries. */
  lemma {:induction false} LimitsKept(limits: Limits, events: seq<Event>)
    ensures WithinLimits(Run(Empty(limits), events)) && Run(Empty(limits), events).limits == limits
  {
    hide Apply;
    if events != [] {
      var n := |events| - 1;
      LimitsKept(limits, events[..n]);
      ApplyWithinLimits(Run(Empty(limits), events[..n]), events[n]);
      ApplyGrows(Run(Empty(limits), events[..n]), events[n]);
    }
  }
}
