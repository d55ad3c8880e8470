/** The broker of `src/core/broker.c` as a value: registries, routing, fan-out to consumers. */
module Routing {
  import opened Sequences
  import opened Memory
  import opened Topics
  import opened QueueModel

  datatype ExchangeType = Direct | Fanout | Topic

  datatype Exchange = Exchange(name: CString, kind: ExchangeType)

  /** Exchanges and queues are named by their place in the registries, which only grow. */
  datatype Binding = Binding(exchange: nat, queue: nat, key: Option<CString>)

  datatype NamedQueue = NamedQueue(name: CString, state: State)

  datatype Registration = Registration(client: nat, queueName: CString)

  /** A call of `send_message_data`, whether it succeeds or not, made for one registration. */
  datatype Attempt = Attempt(registration: nat, client: nat, message: Message)

  /** The sizes of the fixed arrays of the source. */
  datatype Limits = Limits(queues: nat, exchanges: nat, bindings: nat, connections: nat)

  datatype Broker = Broker(
    limits: Limits,
    memory: Mem,
    queues: seq<NamedQueue>,
    exchanges: seq<Exchange>,
    bindings: seq<Binding>,
    registrations: seq<Registration>,
    live: seq<bool>,  // one flag for every client slot
    attempts: seq<Attempt>)
  {
    predicate Valid() {
      && (forall i :: 0 <= i < |bindings| ==> bindings[i].exchange < |exchanges| && bindings[i].queue < |queues|)
      && (forall i :: 0 <= i < |registrations| ==> registrations[i].client < |live|)
      && (forall i :: 0 <= i < |queues| ==> queues[i].state.Valid())
    }
  }

  function Empty(limits: Limits): Broker {
    Broker(limits, Mem([], multiset{}), [], [], [], [], seq(limits.connections, _ => false), [])
  }

  // ---------------------------------------------------------------- registries

  function IsQueue(name: CString): NamedQueue -> bool {
    (q: NamedQueue) => q.name == name
  }

  function IsExchange(name: CString): Exchange -> bool {
    (x: Exchange) => x.name == name
  }

  /** `broker_create_queue`: the queue of that name, old or new, unless there is no room or the capacity is 0. */
  function CreateQueue(b: Broker, name: CString, capacity: nat): (Broker, Option<nat>) {
    var i := IndexOf(b.queues, IsQueue(name), 0);
    if i < |b.queues| then (b, Some(i))
    else if |b.queues| >= b.limits.queues || capacity == 0 then (b, None)
    else (b.(queues := b.queues + [NamedQueue(name, Initial(capacity))]), Some(i))
  }

  /** `broker_create_exchange`. */
  function CreateExchange(b: Broker, name: CString, kind: ExchangeType): (Broker, Option<nat>) {
    var i := IndexOf(b.exchanges, IsExchange(name), 0);
    if i < |b.exchanges| then (b, Some(i))
    else if |b.exchanges| >= b.limits.exchanges then (b, None)
    else (b.(exchanges := b.exchanges + [Exchange(name, kind)]), Some(i))
  }

  /** `broker_bind_queue`. */
  function Bind(b: Broker, exchange: nat, queue: nat, key: Option<CString>): (Broker, bool) {
    if |b.bindings| >= b.limits.bindings then (b, false)
    else (b.(bindings := b.bindings + [Binding(exchange, queue, key)]), true)
  }

  const NAME_LENGTH: nat := 63

  /** What a buffer of 64 characters keeps of a name. */
  function Stored(name: CString): CString {
    if |name| > NAME_LENGTH then name[..NAME_LENGTH] else name
  }

  /** `register_consumer`. */
  function Register(b: Broker, client: int, queueName: CString): (Broker, bool) {
    if !(0 <= client < |b.live|) || |b.registrations| >= b.limits.connections then (b, false)
    else (b.(registrations := b.registrations + [Registration(client, Stored(queueName))]), true)
  }

  // ---------------------------------------------------------------- routing

  predicate Accepts(kind: ExchangeType, key: Option<CString>, routingKey: CString) {
    match kind
    case Fanout => true
    case Direct => key.Some? && key.value == routingKey
    case Topic => key.Some? && MatchTopic(key.value, routingKey)
  }

  predicate Applies(b: Broker, i: nat, exchange: nat, routingKey: CString)
    requires i < |b.bindings| && exchange < |b.exchanges|
  {
    b.bindings[i].exchange == exchange && Accepts(b.exchanges[exchange].kind, b.bindings[i].key, routingKey)
  }

  /** `forward_message_to_consumers` over the given registrations, with one flag for every client slot. */
  function AttemptsFor(registrations: seq<Registration>, live: seq<bool>, queueName: CString,
        message: Message): seq<Attempt>
    requires forall i :: 0 <= i < |registrations| ==> registrations[i].client < |live|
  {
    if registrations == [] then [] else
    var n := |registrations| - 1;
    var before, r := AttemptsFor(registrations[..n], live, queueName, message), registrations[n];
    if r.queueName == queueName && live[r.client] then before + [Attempt(n, r.client, message)] else before
  }

  /** One copy that reached a queue. */
  datatype Placement = Placement(queue: nat, address: Address)

  /** Routing on the way: the broker, and the copies placed so far; their number is what is returned. */
  datatype Routed = Routed(broker: Broker, placed: seq<Placement>)

  /** One matching binding: a clone is enqueued and forwarded, or released when the queue is full. */
  function Place(p: Routed, queue: nat, m: Address): Routed
    requires p.broker.Valid() && queue < |p.broker.queues| && m < |p.broker.memory.blocks|
  {
    var b, message := p.broker, p.broker.memory.blocks[m];
    var q, clone, memory := b.queues[queue], |b.memory.blocks|, b.memory.Alloc(message);
    var o := TryEnqueue(q.state, clone);
    if o.done then
      Routed(b.(memory := memory,
                  queues := b.queues[queue := NamedQueue(q.name, o.next)],
                  attempts := b.attempts + AttemptsFor(b.registrations, b.live, q.name, message)),
               p.placed + [Placement(queue, clone)])
    else Routed(b.(memory := memory.Free(clone)), p.placed)
  }

  /** What one more copy does to the broker does not depend on the copies before. */
  lemma PlaceAlone(b: Broker, placed: seq<Placement>, queue: nat, m: Address)
    requires b.Valid() && queue < |b.queues| && m < |b.memory.blocks|
    ensures var alone := Place(Routed(b, []), queue, m);
            Place(Routed(b, placed), queue, m) == Routed(alone.broker, placed + alone.placed)
  {
  }

  /** What routing never changes. */
  predicate SameSetup(b: Broker, b': Broker) {
    && b'.limits == b.limits
    && b'.exchanges == b.exchanges
    && b'.bindings == b.bindings
    && b'.registrations == b.registrations
    && b'.live == b.live
    && |b'.queues| == |b.queues|
    && forall q :: 0 <= q < |b.queues| ==> b'.queues[q].name == b.queues[q].name
  }

  /** The loop of `broker_route_message` over the first `n` bindings. */
  function RouteTo(b: Broker, exchange: nat, m: Address, n: nat): (p: Routed)
    requires b.Valid() && exchange < |b.exchanges| && m < |b.memory.blocks| && n <= |b.bindings|
    ensures SameSetup(b, p.broker) && p.broker.Valid()
    ensures b.memory.blocks <= p.broker.memory.blocks
  {
    if n == 0 then Routed(b, []) else
    var p := RouteTo(b, exchange, m, n - 1);
    if Applies(b, n - 1, exchange, b.memory.blocks[m].routingKey) then Place(p, b.bindings[n - 1].queue, m) else p
  }

  /** What the loop does at binding `i`, from any state on the way. */
  function RouteAt(b: Broker, exchange: nat, m: Address, i: nat): Routed
    requires b.Valid() && exchange < |b.exchanges| && m < |b.memory.blocks| && i < |b.bindings|
  {
    if Applies(b, i, exchange, b.memory.blocks[m].routingKey) then Place(Routed(b, []), b.bindings[i].queue, m)
    else Routed(b, [])
  }

  lemma RouteToNext(b: Broker, exchange: nat, m: Address, i: nat)
    requires b.Valid() && exchange < |b.exchanges| && m < |b.memory.blocks| && i < |b.bindings|
    ensures var p := RouteTo(b, exchange, m, i);
            var next := RouteAt(p.broker, exchange, m, i);
            RouteTo(b, exchange, m, i + 1) == Routed(next.broker, p.placed + next.placed)
  {
    var p := RouteTo(b, exchange, m, i);
    PlaceAlone(p.broker, p.placed, b.bindings[i].queue, m);
  }

  /** The message given to the router is released unless exactly one copy was placed. */
  function Settled(memory: Mem, m: Address, routed: nat): Mem {
    if routed == 1 then memory else memory.Free(m)
  }

  /** `broker_route_message`. */
  function Route(b: Broker, exchange: nat, m: Address): (p: Routed)
    requires b.Valid() && exchange < |b.exchanges| && m < |b.memory.blocks|
  {
    var p := RouteTo(b, exchange, m, |b.bindings|);
    p.(broker := p.broker.(memory := Settled(p.broker.memory, m, |p.placed|)))
  }

  /** `broker_publish`: a clone goes through the router, and is released here when nothing was routed. */
  function Publish(b: Broker, exchange: nat, m: Address): (p: Routed)
    requires b.Valid() && exchange < |b.exchanges| && m < |b.memory.blocks|
  {
    var clone := |b.memory.blocks|;
    var p := Route(b.(memory := b.memory.Alloc(b.memory.blocks[m])), exchange, clone);
    if p.placed == [] then p.(broker := p.broker.(memory := p.broker.memory.Free(clone))) else p
  }

  // ---------------------------------------------------------------- the event loop

  const ACK_TIMEOUT_SECONDS: int := 30
  const CHECK_INTERVAL_SECONDS: int := 5

  /** `queue_process_timeouts` on one queue of the broker. */
  function SweepQueue(b: Broker, q: nat, now: int, timeout: int): Broker
    requires q < |b.queues|
  {
    var o := Sweep(b.queues[q].state, now, timeout);
    b.(memory := b.memory.FreeAll(o.released), queues := b.queues[q := NamedQueue(b.queues[q].name, o.next)])
  }

  /** The sweep of the first `n` queues, each with the clock reading it makes itself. */
  function SweepTo(b: Broker, readings: seq<int>, timeout: int, n: nat): (b': Broker)
    requires n <= |b.queues| <= |readings|
    ensures |b'.queues| == |b.queues|
  {
    if n == 0 then b else SweepQueue(SweepTo(b, readings, timeout, n - 1), n - 1, readings[n - 1], timeout)
  }

  lemma SweepToNext(b: Broker, readings: seq<int>, timeout: int, i: nat)
    requires i < |b.queues| <= |readings|
    ensures SweepTo(b, readings, timeout, i + 1) ==
            SweepQueue(SweepTo(b, readings, timeout, i), i, readings[i], timeout)
  {
  }

  /**
   * One iteration of `broker_event_loop` while the broker runs: the broker after
   * it, and the time of the last check.
   */
  function Iterate(b: Broker, lastCheck: int, now: int, readings: seq<int>): (Broker, int)
    requires |b.queues| <= |readings|
  {
    if now - lastCheck >= CHECK_INTERVAL_SECONDS then (SweepTo(b, readings, ACK_TIMEOUT_SECONDS, |b.queues|), now)
    else (b, lastCheck)
  }

  // ---------------------------------------------------------------- exactly what routing does

  /** The copies placed in queue `q`, in the order of placement. */
  function PlacedIn(placed: seq<Placement>, q: nat): (addresses: seq<Address>)
    ensures |addresses| <= |placed|
  {
    if placed == [] then [] else
    var before, last := PlacedIn(placed[..|placed| - 1], q), placed[|placed| - 1];
    if last.queue == q then before + [last.address] else before
  }

  /** How many of the first `n` bindings match and lead to queue `q`. */
  function Matching(b: Broker, exchange: nat, routingKey: CString, q: nat, n: nat): (count: nat)
    requires exchange < |b.exchanges| && n <= |b.bindings|
    ensures count <= n
  {
    if n == 0 then 0 else
    Matching(b, exchange, routingKey, q, n - 1)
    + if Applies(b, n - 1, exchange, routingKey) && b.bindings[n - 1].queue == q then 1 else 0
  }

  /** How many of the first `n` bindings match. */
  function MatchingAll(b: Broker, exchange: nat, routingKey: CString, n: nat): (count: nat)
    requires exchange < |b.exchanges| && n <= |b.bindings|
  {
    if n == 0 then 0 else
    MatchingAll(b, exchange, routingKey, n - 1) + if Applies(b, n - 1, exchange, routingKey) then 1 else 0
  }

  function Room(s: State): int {
    s.capacity - |s.ring|
  }

  lemma PlacedInSnoc(placed: seq<Placement>, p: Placement, q: nat)
    ensures PlacedIn(placed + [p], q) == if p.queue == q then PlacedIn(placed, q) + [p.address] else PlacedIn(placed, q)
  {
    assert (placed + [p])[..|placed|] == placed;
  }

  lemma PlaceInQueue(p: Routed, target: nat, m: Address, q: nat)
    requires p.broker.Valid() && target < |p.broker.queues| && m < |p.broker.memory.blocks| && q < |p.broker.queues|
    ensures var before, after, clone := p.broker.queues[q], Place(p, target, m), |p.broker.memory.blocks|;
            if q == target && !before.state.Full() then
              && after.broker.queues[q] == NamedQueue(before.name, Append(before.state, clone))
              && PlacedIn(after.placed, q) == PlacedIn(p.placed, q) + [clone]
            else
              after.broker.queues[q] == before && PlacedIn(after.placed, q) == PlacedIn(p.placed, q)
  {
    PlacedInSnoc(p.placed, Placement(target, |p.broker.memory.blocks|), q);
  }

  /** Every queue gets as many copies as bindings lead to it, as long as there is room; it changes in no other way. */
  lemma {:induction false} RouteToQueue(b: Broker, exchange: nat, m: Address, n: nat, q: nat)
    requires b.Valid() && exchange < |b.exchanges| && m < |b.memory.blocks| && n <= |b.bindings| && q < |b.queues|
    ensures var p, s := RouteTo(b, exchange, m, n), b.queues[q].state;
            var copies := PlacedIn(p.placed, q);
            && p.broker.queues[q] == NamedQueue(b.queues[q].name, s.(ring := s.ring + copies))
            && |copies| == Min(Room(s), Matching(b, exchange, b.memory.blocks[m].routingKey, q, n))
  {
    hide Place;
    var ring := b.queues[q].state.ring;
    if n == 0 {
      assert ring + [] == ring;
    } else {
      RouteToQueue(b, exchange, m, n - 1, q);
      var p := RouteTo(b, exchange, m, n - 1);
      PlaceInQueue(p, b.bindings[n - 1].queue, m, q);
      var copies, clone := PlacedIn(p.placed, q), |p.broker.memory.blocks|;
      assert ring + (copies + [clone]) == (ring + copies) + [clone];
    }
  }

  /** How often `a` was placed. */
  function TimesPlaced(placed: seq<Placement>, a: Address): nat {
    if placed == [] then 0 else
    TimesPlaced(placed[..|placed| - 1], a) + if placed[|placed| - 1].address == a then 1 else 0
  }

  lemma TimesPlacedSnoc(placed: seq<Placement>, p: Placement, a: Address)
    ensures TimesPlaced(placed + [p], a) == TimesPlaced(placed, a) + if p.address == a then 1 else 0
  {
    assert (placed + [p])[..|placed|] == placed;
  }

  /**
   * The heap: one new block equal to the message for every matching binding,
   * placed once or released once; nothing else is touched.
   */
  lemma {:induction false} RouteToMemory(b: Broker, exchange: nat, m: Address, n: nat, a: Address)
    requires b.Valid() && exchange < |b.exchanges| && m < |b.memory.blocks| && n <= |b.bindings|
    ensures var p, before := RouteTo(b, exchange, m, n), b.memory;
            var after := p.broker.memory;
            && |after.blocks| == |before.blocks| + MatchingAll(b, exchange, before.blocks[m].routingKey, n)
            && (|before.blocks| <= a < |after.blocks| ==> after.blocks[a] == before.blocks[m])
            && TimesPlaced(p.placed, a) + after.frees[a] ==
               before.frees[a] + (if |before.blocks| <= a < |after.blocks| then 1 else 0)
            && (!(|before.blocks| <= a < |after.blocks|) ==> TimesPlaced(p.placed, a) == 0)
  {
    if n > 0 {
      RouteToMemory(b, exchange, m, n - 1, a);
      var p := RouteTo(b, exchange, m, n - 1);
      TimesPlacedSnoc(p.placed, Placement(b.bindings[n - 1].queue, |p.broker.memory.blocks|), a);
    }
  }

  /** The sum over the first `k` queues of the copies each of them got. */
  function TotalPlaced(placed: seq<Placement>, k: nat): nat {
    if k == 0 then 0 else TotalPlaced(placed, k - 1) + |PlacedIn(placed, k - 1)|
  }

  lemma {:induction false} TotalPlacedSnoc(placed: seq<Placement>, p: Placement, k: nat)
    ensures TotalPlaced(placed + [p], k) == TotalPlaced(placed, k) + if p.queue < k then 1 else 0
  {
    if k > 0 {
      TotalPlacedSnoc(placed, p, k - 1);
      PlacedInSnoc(placed, p, k - 1);
    }
  }

  lemma {:induction false} TotalPlacedNone(k: nat)
    ensures TotalPlaced([], k) == 0
  {
    if k > 0 {
      TotalPlacedNone(k - 1);
    }
  }

  lemma {:induction false} RouteToTotal(b: Broker, exchange: nat, m: Address, n: nat)
    requires b.Valid() && exchange < |b.exchanges| && m < |b.memory.blocks| && n <= |b.bindings|
    ensures var p := RouteTo(b, exchange, m, n); |p.placed| == TotalPlaced(p.placed, |b.queues|)
  {
    if n == 0 {
      TotalPlacedNone(|b.queues|);
    } else {
      RouteToTotal(b, exchange, m, n - 1);
      var p := RouteTo(b, exchange, m, n - 1);
      TotalPlacedSnoc(p.placed, Placement(b.bindings[n - 1].queue, |p.broker.memory.blocks|), |b.queues|);
    }
  }

  /** The sum over the first `k` queues of the smaller of free slots and matching bindings. */
  function Deliverable(b: Broker, exchange: nat, routingKey: CString, k: nat): int
    requires exchange < |b.exchanges| && k <= |b.queues|
  {
    if k == 0 then 0 else
    Deliverable(b, exchange, routingKey, k - 1)
    + Min(Room(b.queues[k - 1].state), Matching(b, exchange, routingKey, k - 1, |b.bindings|))
  }

  lemma {:induction false} TotalIsDeliverable(b: Broker, exchange: nat, m: Address, k: nat)
    requires b.Valid() && exchange < |b.exchanges| && m < |b.memory.blocks| && k <= |b.queues|
    ensures TotalPlaced(RouteTo(b, exchange, m, |b.bindings|).placed, k)
         == Deliverable(b, exchange, b.memory.blocks[m].routingKey, k)
  {
    if k > 0 {
      TotalIsDeliverable(b, exchange, m, k - 1);
      RouteToQueue(b, exchange, m, |b.bindings|, k - 1);
    }
  }

  /**
   * Exact routing, for every exchange type and every list of bindings: queue
   * `q` gets min(free slots, matching bindings to `q`) copies at its tail,
   * every copy equals the message, and the answer is the sum over all queues.
   */
  lemma ExactRouting(b: Broker, exchange: nat, m: Address, q: nat)
    requires b.Valid() && exchange < |b.exchanges| && m < |b.memory.blocks| && q < |b.queues|
    ensures var p, s, message := Route(b, exchange, m), b.queues[q].state, b.memory.blocks[m];
            var copies := PlacedIn(p.placed, q);
            && p.broker.queues[q] == NamedQueue(b.queues[q].name, s.(ring := s.ring + copies))
            && |copies| == Min(Room(s), Matching(b, exchange, message.routingKey, q, |b.bindings|))
            && (forall i :: 0 <= i < |copies| ==>
                  && |b.memory.blocks| <= copies[i] < |p.broker.memory.blocks|
                  && p.broker.memory.blocks[copies[i]] == message)
            && |p.placed| == Deliverable(b, exchange, message.routingKey, |b.queues|)
  {
    var p := RouteTo(b, exchange, m, |b.bindings|);
    RouteToQueue(b, exchange, m, |b.bindings|, q);
    RouteToTotal(b, exchange, m, |b.bindings|);
    TotalIsDeliverable(b, exchange, m, |b.queues|);
    var copies := PlacedIn(p.placed, q);
    forall i | 0 <= i < |copies|
      ensures |b.memory.blocks| <= copies[i] < |p.broker.memory.blocks|
      ensures p.broker.memory.blocks[copies[i]] == b.memory.blocks[m]
    {
      PlacedTimes(p.placed, q, i);
      RouteToMemory(b, exchange, m, |b.bindings|, copies[i]);
    }
  }

  lemma {:induction false} PlacedTimes(placed: seq<Placement>, q: nat, i: nat)
    requires i < |PlacedIn(placed, q)|
    ensures TimesPlaced(placed, PlacedIn(placed, q)[i]) > 0
  {
    var n := |placed| - 1;
    var before := PlacedIn(placed[..n], q);
    if i < |before| {
      PlacedTimes(placed[..n], q, i);
    }
  }

  // ---------------------------------------------------------------- who owns what after a publish

  /**
   * After a publish the heap holds one new block for the routing clone and one
   * for every matching binding. A block that was placed is live and in one
   * queue slot; a clone that found its queue full was released once; the
   * routing clone was released twice, never, or once, as none, one or more
   * copies were placed.
   */
  lemma PublishOwnership(b: Broker, exchange: nat, m: Address, a: Address)
    requires b.Valid() && exchange < |b.exchanges| && m < |b.memory.blocks|
    requires forall x :: x in b.memory.frees ==> x < |b.memory.blocks|
    ensures var p, before := Publish(b, exchange, m), b.memory;
            var after, clone := p.broker.memory, |before.blocks|;
            && before.blocks <= after.blocks
            && |after.blocks| == clone + 1 + MatchingAll(b, exchange, before.blocks[m].routingKey, |b.bindings|)
            && (a < clone ==> after.frees[a] == before.frees[a] && TimesPlaced(p.placed, a) == 0)
            && (clone <= a < |after.blocks| ==> after.blocks[a] == before.blocks[m])
            && (clone < a < |after.blocks| ==> TimesPlaced(p.placed, a) + after.frees[a] == 1)
            && after.frees[clone] == (if |p.placed| == 0 then 2 else if |p.placed| == 1 then 0 else 1)
            && TimesPlaced(p.placed, clone) == 0
  {
    var clone := |b.memory.blocks|;
    var b1 := b.(memory := b.memory.Alloc(b.memory.blocks[m]));
    SameMatching(b, b1, exchange, b.memory.blocks[m].routingKey, |b.bindings|);
    RouteToMemory(b1, exchange, clone, |b.bindings|, a);
    RouteToMemory(b1, exchange, clone, |b.bindings|, clone);
  }

  lemma {:induction false} SameMatching(b: Broker, b': Broker, exchange: nat, routingKey: CString, n: nat)
    requires b'.exchanges == b.exchanges && b'.bindings == b.bindings && exchange < |b.exchanges| && n <= |b.bindings|
    ensures MatchingAll(b', exchange, routingKey, n) == MatchingAll(b, exchange, routingKey, n)
  {
    if n > 0 {
      SameMatching(b, b', exchange, routingKey, n - 1);
    }
  }

  /** The routing clone is released exactly once if and only if at least two copies were placed. */
  lemma CloneReleasedOnceIff(b: Broker, exchange: nat, m: Address)
    requires b.Valid() && exchange < |b.exchanges| && m < |b.memory.blocks|
    requires forall x :: x in b.memory.frees ==> x < |b.memory.blocks|
    ensures Publish(b, exchange, m).broker.memory.frees[|b.memory.blocks|] == 1 <==>
            Deliverable(b, exchange, b.memory.blocks[m].routingKey, |b.queues|) >= 2
  {
    var clone := |b.memory.blocks|;
    var b1 := b.(memory := b.memory.Alloc(b.memory.blocks[m]));
    PublishOwnership(b, exchange, m, clone);
    RouteToTotal(b1, exchange, clone, |b.bindings|);
    TotalIsDeliverable(b1, exchange, clone, |b.queues|);
    SameDeliverable(b, b1, exchange, b.memory.blocks[m].routingKey, |b.queues|);
  }

  lemma {:induction false} SameMatchingTo(b: Broker, b': Broker, exchange: nat, routingKey: CString, q: nat, n: nat)
    requires b'.exchanges == b.exchanges && b'.bindings == b.bindings && exchange < |b.exchanges| && n <= |b.bindings|
    ensures Matching(b', exchange, routingKey, q, n) == Matching(b, exchange, routingKey, q, n)
  {
    if n > 0 {
      SameMatchingTo(b, b', exchange, routingKey, q, n - 1);
    }
  }

  lemma {:induction false} SameDeliverable(b: Broker, b': Broker, exchange: nat, routingKey: CString, k: nat)
    requires b'.exchanges == b.exchanges && b'.bindings == b.bindings && b'.queues == b.queues
    requires exchange < |b.exchanges| && k <= |b.queues|
    ensures Deliverable(b', exchange, routingKey, k) == Deliverable(b, exchange, routingKey, k)
  {
    if k > 0 {
      SameDeliverable(b, b', exchange, routingKey, k - 1);
      SameMatchingTo(b, b', exchange, routingKey, k - 1, |b.bindings|);
    }
  }
}
