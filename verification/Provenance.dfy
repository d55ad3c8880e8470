/** Where the messages in the queues come from, over whole runs of the broker. */
module Provenance {
  import opened Sequences
  import opened Memory
  import opened QueueModel
  import opened QueueRuns
  import opened Routing
  import opened BrokerRuns

  // ---------------------------------------------------------------- nothing spurious in a queue

  /** Messages enter queues by publishing only. */
  ghost predicate ByPublishing(events: seq<Event>) {
    forall i :: 0 <= i < |events| ==> !(events[i].Call? && events[i].op.Enqueue?)
  }

  /** A publish, with the number of bindings there were. */
  datatype Publication = Publication(exchange: nat, message: Message, bindings: nat)

  function Publications(b: Broker, events: seq<Event>): seq<Publication>
    requires b.Valid()
  {
    if events == [] then [] else
    var n := |events| - 1;
    var before := Run(b, events[..n]);
    match events[n]
    case Incoming(exchange, message) =>
      Publications(b, events[..n]) + [Publication(exchange, message, |before.bindings|)]
    case _ => Publications(b, events[..n])
  }

  /** A binding that existed at the publish led it to queue `q`. */
  predicate Led(b: Broker, p: Publication, i: nat, q: nat) {
    && i < p.bindings <= |b.bindings|
    && p.exchange < |b.exchanges|
    && b.bindings[i].queue == q
    && Applies(b, i, p.exchange, p.message.routingKey)
  }

  /** The block at `a` is, in every field, a message that was published and led to `q`. */
  ghost predicate Explained(b: Broker, published: seq<Publication>, q: nat, a: Address) {
    && a < |b.memory.blocks|
    && exists p, i :: 0 <= p < |published| && Led(b, published[p], i, q) && b.memory.blocks[a] == published[p].message
  }

  /** The queue holds `a`, in the ring or in an entry of the table, marked or not. */
  ghost predicate Holds(s: State, a: Address) {
    a in s.ring || exists e :: e in s.table && e.message == a
  }

  ghost predicate AllExplained(b: Broker, published: seq<Publication>) {
    forall q, a :: 0 <= q < |b.queues| && Holds(b.queues[q].state, a) ==> Explained(b, published, q, a)
  }

  lemma {:induction false} OverdueHeld(table: seq<Entry>, now: int, timeout: int, a: Address)
    ensures a in Overdue(table, now, timeout) ==> exists e :: e in table && e.message == a
  {
    if table != [] {
      OverdueHeld(table[..|table| - 1], now, timeout, a);
      assert table[|table| - 1] in table;
    }
  }

  lemma ReverseMembers<T>(s: seq<T>, x: T)
    ensures x in Reverse(s) <==> x in s
  {
    ReverseMultiset(s);
    assert x in multiset(Reverse(s)) <==> x in multiset(s);
  }

  /** A call on a queue brings in nothing but an enqueued message. */
  lemma StepHolds(s: State, op: Op, a: Address)
    requires Holds(Next(s, op), a)
    ensures Holds(s, a) || op == Enqueue(a)
  {
    match op
    case Enqueue(_) =>
    case Dequeue(_, _) =>
    case Acknowledge(_) =>
      if Target(s, op) < |s.table| {
        SettleHolds(s, Target(s, op), a);
      }
    case Refuse(_, _) =>
      if Target(s, op) < |s.table| {
        SettleHolds(s, Target(s, op), a);
      }
    case Timeouts(now, timeout) => SweepHolds(s, now, timeout, a);
  }

  lemma SettleHolds(s: State, i: nat, a: Address)
    requires i < |s.table|
    ensures (exists e :: e in Settle(s, i).table && e.message == a) ==> exists e :: e in s.table && e.message == a
    ensures s.table[i] in s.table
  {
    var settled := s.table[i];
    forall e | e in Settle(s, i).table
      ensures exists f :: f in s.table && f.message == e.message
    {
      PendingMembers(Mark(s.table, i), e);
      assert e in s.table || e == settled.(status := Acknowledged);
    }
  }

  lemma SweepHolds(s: State, now: int, timeout: int, a: Address)
    requires Holds(Sweep(s, now, timeout).next, a)
    ensures Holds(s, a)
  {
    var taken, t := Overdue(s.table, now, timeout), Sweep(s, now, timeout).next;
    if timeout > 0 {
      var k := PutBack(s, taken).requeued;
      if a in t.ring {
        ReverseMembers(taken[..k], a);
        OverdueHeld(s.table, now, timeout, a);
      } else {
        var e :| e in t.table && e.message == a;
        KeptMembers(s.table, now, timeout, e);
        MarkedMessage(s.table, now, timeout, e);
      }
    }
  }

  lemma MarkedMessage(table: seq<Entry>, now: int, timeout: int, e: Entry)
    ensures e in MarkExpired(table, now, timeout) ==> exists f :: f in table && f.message == e.message
  {
    var marked := MarkExpired(table, now, timeout);
    if e in marked {
      var i :| 0 <= i < |marked| && marked[i] == e;
      assert table[i] in table;
    }
  }

  /** Every copy routed to `q` was led there by a binding. */
  lemma {:induction false} RouteLeads(b: Broker, exchange: nat, m: Address, n: nat, q: nat) returns (i: nat)
    requires b.Valid() && exchange < |b.exchanges| && m < |b.memory.blocks| && n <= |b.bindings|
    requires PlacedIn(RouteTo(b, exchange, m, n).placed, q) != []
    ensures i < n && Applies(b, i, exchange, b.memory.blocks[m].routingKey) && b.bindings[i].queue == q
  {
    var p := RouteTo(b, exchange, m, n - 1);
    if PlacedIn(p.placed, q) != [] {
      i := RouteLeads(b, exchange, m, n - 1, q);
    } else {
      i := n - 1;
      PlacedInSnoc(p.placed, Placement(b.bindings[i].queue, |p.broker.memory.blocks|), q);
    }
  }

  /** What was explained stays explained. */
  lemma ExplainedStays(b: Broker, b': Broker, published: seq<Publication>, published': seq<Publication>,
        q: nat, a: Address)
    requires Grows(b, b') && published <= published' && Explained(b, published, q, a)
    ensures Explained(b', published', q, a)
  {
    var p, i :| 0 <= p < |published| && Led(b, published[p], i, q) && b.memory.blocks[a] == published[p].message;
    assert Led(b', published'[p], i, q);
  }

  lemma IncomingExplained(b: Broker, exchange: nat, message: Message, published: seq<Publication>, q: nat, a: Address)
    requires b.Valid() && exchange < |b.exchanges| && q < |b.queues|
    requires a in PlacedIn(Handle(b, exchange, message).placed, q)
    ensures var published' := published + [Publication(exchange, message, |b.bindings|)];
            Explained(Handle(b, exchange, message).broker, published', q, a)
  {
    var received := |b.memory.blocks|;
    var b1 := b.(memory := b.memory.Alloc(message));
    var b2 := b1.(memory := b1.memory.Alloc(message));
    var b' := Handle(b, exchange, message).broker;
    var published' := published + [Publication(exchange, message, |b.bindings|)];
    ExactRouting(b2, exchange, received + 1, q);
    var i := RouteLeads(b2, exchange, received + 1, |b.bindings|, q);
    assert published'[|published|] == Publication(exchange, message, |b.bindings|);
    assert Led(b', published'[|published|], i, q);
  }

  /** Where a message that a queue holds after a publish was before. */
  lemma IncomingHolds(b: Broker, exchange: nat, message: Message, q: nat, a: Address)
    requires b.Valid() && exchange < |b.exchanges| && q < |b.queues|
    requires Holds(Handle(b, exchange, message).broker.queues[q].state, a)
    ensures Holds(b.queues[q].state, a) || a in PlacedIn(Handle(b, exchange, message).placed, q)
  {
    var b1 := b.(memory := b.memory.Alloc(message));
    var b2 := b1.(memory := b1.memory.Alloc(message));
    ExactRouting(b2, exchange, |b.memory.blocks| + 1, q);
  }

  lemma ApplyExplained(b: Broker, e: Event, published: seq<Publication>, published': seq<Publication>)
    requires b.Valid() && AllExplained(b, published)
    requires published' == if e.Incoming? then published + [Publication(e.exchange, e.message, |b.bindings|)]
                           else published
    requires !(e.Call? && e.op.Enqueue?)
    ensures AllExplained(Apply(b, e), published')
  {
    var b' := Apply(b, e);
    ApplyGrows(b, e);
    forall q, a | 0 <= q < |b'.queues| && Holds(b'.queues[q].state, a)
      ensures Explained(b', published', q, a)
    {
      if q >= |b.queues| {
        assert false;
      } else {
        if e.Call? && q == e.queue {
          StepHolds(b.queues[q].state, e.op, a);
        }
        if e.Incoming? && e.exchange < |b.exchanges| {
          IncomingHolds(b, e.exchange, e.message, q, a);
        }
        if Holds(b.queues[q].state, a) {
          ExplainedStays(b, b', published, published', q, a);
        } else {
          IncomingExplained(b, e.exchange, e.message, published, q, a);
        }
      }
    }
  }

  /**
   * In every reachable state, every message in a ring or in a delivery table
   * equals, in all fields, a message that was published to an exchange with a
   * binding to that queue that matched its routing key at the time.
   */
  lemma {:induction false} NoSpuriousMessage(limits: Limits, events: seq<Event>)
    requires ByPublishing(events)
    ensures AllExplained(Run(Empty(limits), events), Publications(Empty(limits), events))
  {
    if events != [] {
      var n := |events| - 1;
      NoSpuriousMessage(limits, events[..n]);
      ApplyExplained(Run(Empty(limits), events[..n]), events[n],
                     Publications(Empty(limits), events[..n]), Publications(Empty(limits), events));
    }
  }
}
