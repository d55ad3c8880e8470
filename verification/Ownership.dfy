/** Who owns the messages in the queues, over whole runs of the broker. */
module Ownership {
  import opened Memory
  import opened QueueModel
  import opened QueueRuns
  import opened Routing
  import opened BrokerRuns
  import opened Provenance
  import opened QueueBounds

  /** How often the first `k` queues hold `a`. */
  function TotalHeld(queues: seq<NamedQueue>, a: Address, k: nat): nat
    requires k <= |queues|
  {
    if k == 0 then 0 else TotalHeld(queues, a, k - 1) + Held(queues[k - 1].state, a)
  }

  lemma {:induction false} TotalHeldUpdate(queues: seq<NamedQueue>, q: nat, named: NamedQueue, a: Address, k: nat)
    requires q < |queues| && k <= |queues|
    ensures TotalHeld(queues[q := named], a, k) ==
            if q < k then TotalHeld(queues, a, k) - Held(queues[q].state, a) + Held(named.state, a)
            else TotalHeld(queues, a, k)
  {
    if k > 0 {
      TotalHeldUpdate(queues, q, named, a, k - 1);
    }
  }

  lemma PlaceHeld(p: Routed, target: nat, m: Address, a: Address)
    requires p.broker.Valid() && target < |p.broker.queues| && m < |p.broker.memory.blocks|
    ensures var after, n := Place(p, target, m), |p.broker.queues|;
            TotalHeld(after.broker.queues, a, n) + TimesPlaced(p.placed, a) ==
            TotalHeld(p.broker.queues, a, n) + TimesPlaced(after.placed, a)
  {
    var clone, q := |p.broker.memory.blocks|, p.broker.queues[target];
    TotalHeldUpdate(p.broker.queues, target, NamedQueue(q.name, Append(q.state, clone)), a, |p.broker.queues|);
    TimesPlacedSnoc(p.placed, Placement(target, clone), a);
  }

  /** What one more copy adds to the holdings. */
  lemma {:induction false} RouteHeld(b: Broker, exchange: nat, m: Address, n: nat, a: Address)
    requires b.Valid() && exchange < |b.exchanges| && m < |b.memory.blocks| && n <= |b.bindings|
    ensures var p := RouteTo(b, exchange, m, n);
            TotalHeld(p.broker.queues, a, |b.queues|) == TotalHeld(b.queues, a, |b.queues|) + TimesPlaced(p.placed, a)
  {
    if n > 0 {
      RouteHeld(b, exchange, m, n - 1, a);
      var p := RouteTo(b, exchange, m, n - 1);
      if Applies(b, n - 1, exchange, b.memory.blocks[m].routingKey) {
        PlaceHeld(p, b.bindings[n - 1].queue, m, a);
      }
    }
  }

  lemma {:induction false} TotalHeldSame(queues: seq<NamedQueue>, queues': seq<NamedQueue>, a: Address, k: nat)
    requires k <= |queues| <= |queues'| && forall i :: 0 <= i < k ==> queues'[i].state == queues[i].state
    ensures TotalHeld(queues', a, k) == TotalHeld(queues, a, k)
  {
    if k > 0 {
      TotalHeldSame(queues, queues', a, k - 1);
    }
  }

  lemma {:induction false} TotalHeldNone(queues: seq<NamedQueue>, a: Address, k: nat)
    requires k <= |queues| && forall q :: 0 <= q < k ==> Held(queues[q].state, a) == 0
    ensures TotalHeld(queues, a, k) == 0
  {
    if k > 0 {
      TotalHeldNone(queues, a, k - 1);
    }
  }

  /** A new queue holds nothing. */
  lemma DeclareHeld(b: Broker, name: CString, capacity: nat, a: Address)
    ensures var b' := CreateQueue(b, name, capacity).0;
            TotalHeld(b'.queues, a, |b'.queues|) == TotalHeld(b.queues, a, |b.queues|) && b'.memory == b.memory
  {
    var b' := CreateQueue(b, name, capacity).0;
    if b' != b {
      TotalHeldSame(b.queues, b'.queues, a, |b.queues|);
    }
  }

  /** One call on a queue: held before, plus settled again, is held after plus released. */
  lemma CallBalance(b: Broker, q: nat, op: Op, a: Address)
    requires b.Valid() && q < |b.queues| && !op.Enqueue?
    ensures var s, b' := b.queues[q].state, CallQueue(b, q, op);
            var released := multiset(Step(s, op).released)[a];
            && TotalHeld(b'.queues, a, |b'.queues|) + released == TotalHeld(b.queues, a, |b.queues|) + Again(s, op)[a]
            && b'.memory.frees[a] == b.memory.frees[a] + released
  {
    StepBalance(b.queues[q].state, op, a);
    TotalHeldUpdate(b.queues, q, CallQueue(b, q, op).queues[q], a, |b.queues|);
  }

  /** One publish: what was placed is held in addition; a block of its own is placed or released once. */
  lemma IncomingBalance(b: Broker, exchange: nat, message: Message, a: Address)
    requires b.Valid() && exchange < |b.exchanges| && FreesAllocated(b)
    ensures var p, size := Handle(b, exchange, message), |b.memory.blocks|;
            var b', held := p.broker, TotalHeld(b.queues, a, |b.queues|);
            && size + 2 <= |b'.memory.blocks|
            && |b'.queues| == |b.queues|
            && (a < size ==> TotalHeld(b'.queues, a, |b'.queues|) == held && b'.memory.frees[a] == b.memory.frees[a])
            && (size <= a < size + 2 || |b'.memory.blocks| <= a ==> TotalHeld(b'.queues, a, |b'.queues|) == held)
            && (size + 2 <= a < |b'.memory.blocks| ==>
                  TotalHeld(b'.queues, a, |b'.queues|) + b'.memory.frees[a] == held + 1)
            && (|b'.memory.blocks| <= a ==> b'.memory.frees[a] == 0)
  {
    var received := |b.memory.blocks|;
    var b1 := b.(memory := b.memory.Alloc(message));
    var b2 := b1.(memory := b1.memory.Alloc(message));
    RouteHeld(b2, exchange, received + 1, |b.bindings|, a);
    RouteToMemory(b2, exchange, received + 1, |b.bindings|, a);
    PublishOwnership(b1, exchange, received, a);
  }

  /** Only allocated blocks were released. */
  ghost predicate FreesAllocated(b: Broker) {
    forall a :: a in b.memory.frees ==> a < |b.memory.blocks|
  }

  // ---------------------------------------------------------------- every copy is held or released

  /**
   * The event makes `a` as a clone for a matching binding: a block after the
   * received message and the routing clone.
   */
  predicate Makes(b: Broker, e: Event, a: Address)
    requires b.Valid()
  {
    e.Incoming? && |b.memory.blocks| + 2 <= a < |Apply(b, e).memory.blocks|
  }

  predicate IsCopy(b: Broker, events: seq<Event>, a: Address)
    requires b.Valid()
  {
    events != [] &&
    var n := |events| - 1;
    IsCopy(b, events[..n], a) || Makes(Run(b, events[..n]), events[n], a)
  }

  /** How often the calls of a run settle `a` again, after a sweep released it. */
  function Resettled(b: Broker, events: seq<Event>, a: Address): nat
    requires b.Valid()
  {
    if events == [] then 0 else
    var n := |events| - 1;
    Resettled(b, events[..n], a) + ResettledBy(Run(b, events[..n]), events[n], a)
  }

  function ResettledBy(b: Broker, e: Event, a: Address): nat {
    if e.Call? && e.queue < |b.queues| then Again(b.queues[e.queue].state, e.op)[a] else 0
  }

  ghost predicate Nowhere(b: Broker, a: Address) {
    forall q :: 0 <= q < |b.queues| ==> !Holds(b.queues[q].state, a)
  }

  /** What is known of one address at some point of a run. */
  ghost predicate Balanced(b: Broker, isCopy: bool, resettled: nat, a: Address) {
    && (isCopy ==> a < |b.memory.blocks| && TotalHeld(b.queues, a, |b.queues|) + b.memory.frees[a] == 1 + resettled)
    && (!isCopy ==> Nowhere(b, a) && TotalHeld(b.queues, a, |b.queues|) == 0 && resettled == 0)
    && (|b.memory.blocks| <= a ==> b.memory.frees[a] == 0)
  }

  lemma CallBalanced(b: Broker, q: nat, op: Op, isCopy: bool, resettled: nat, a: Address)
    requires b.Valid() && q < |b.queues| && !op.Enqueue? && Balanced(b, isCopy, resettled, a)
    ensures Balanced(CallQueue(b, q, op), isCopy, resettled + Again(b.queues[q].state, op)[a], a)
  {
    var s, b' := b.queues[q].state, CallQueue(b, q, op);
    CallBalance(b, q, op, a);
    if !isCopy {
      if SettlesMarked(s, op) {
        assert s.table[Target(s, op)] in s.table;
      }
      forall i | 0 <= i < |b'.queues|
        ensures !Holds(b'.queues[i].state, a)
      {
        if i == q && Holds(Next(s, op), a) {
          StepHolds(s, op, a);
        }
      }
    }
  }

  lemma IncomingBalanced(b: Broker, exchange: nat, message: Message, isCopy: bool, resettled: nat, a: Address)
    requires b.Valid() && exchange < |b.exchanges| && FreesAllocated(b) && Balanced(b, isCopy, resettled, a)
    ensures var b' := Handle(b, exchange, message).broker;
            Balanced(b', isCopy || |b.memory.blocks| + 2 <= a < |b'.memory.blocks|, resettled, a)
  {
    var b' := Handle(b, exchange, message).broker;
    IncomingBalance(b, exchange, message, a);
    if !(isCopy || |b.memory.blocks| + 2 <= a < |b'.memory.blocks|) {
      forall q | 0 <= q < |b'.queues|
        ensures !Holds(b'.queues[q].state, a)
      {
        NotPlaced(b, exchange, message, q, a);
      }
    }
  }

  lemma NotPlaced(b: Broker, exchange: nat, message: Message, q: nat, a: Address)
    requires b.Valid() && exchange < |b.exchanges| && q < |b.queues| && !Holds(b.queues[q].state, a)
    requires !(|b.memory.blocks| + 2 <= a < |Handle(b, exchange, message).broker.memory.blocks|)
    ensures !Holds(Handle(b, exchange, message).broker.queues[q].state, a)
  {
    var p := Handle(b, exchange, message);
    if Holds(p.broker.queues[q].state, a) {
      IncomingHolds(b, exchange, message, q, a);
      var b1 := b.(memory := b.memory.Alloc(message));
      ExactRouting(b1.(memory := b1.memory.Alloc(message)), exchange, |b.memory.blocks| + 1, q);
    }
  }

  lemma OtherBalanced(b: Broker, e: Event, isCopy: bool, resettled: nat, a: Address)
    requires b.Valid() && Balanced(b, isCopy, resettled, a) && !e.Call? && !(e.Incoming? && e.exchange < |b.exchanges|)
    ensures Balanced(Apply(b, e), isCopy, resettled, a)
  {
    if e.DeclareQueue? {
      DeclareHeld(b, e.name, e.capacity, a);
    }
  }

  lemma ApplyBalanced(b: Broker, e: Event, isCopy: bool, resettled: nat, a: Address)
    requires b.Valid() && FreesAllocated(b) && !(e.Call? && e.op.Enqueue?) && Balanced(b, isCopy, resettled, a)
    ensures Balanced(Apply(b, e), isCopy || Makes(b, e, a), resettled + ResettledBy(b, e, a), a)
  {
    if e.Call? {
      if e.queue < |b.queues| {
        CallBalanced(b, e.queue, e.op, isCopy, resettled, a);
      }
    } else if e.Incoming? && e.exchange < |b.exchanges| {
      IncomingBalanced(b, e.exchange, e.message, isCopy, resettled, a);
    } else {
      OtherBalanced(b, e, isCopy, resettled, a);
    }
  }

  /**
   * In every run whatever, for every clone made for a matching binding: how
   * often it is held, plus how often it was released, is one, plus how often a
   * call settled it again. Nothing else is ever in a queue.
   */
  lemma {:induction false} CopyLaw(limits: Limits, events: seq<Event>, a: Address)
    requires ByPublishing(events)
    ensures var b := Empty(limits); Balanced(Run(b, events), IsCopy(b, events, a), Resettled(b, events, a), a)
    decreases |events|, 0
  {
    hide Apply, Balanced, Makes, ResettledBy;
    if events == [] {
      StartBalanced(limits, a);
    } else {
      var n := |events| - 1;
      CopyLaw(limits, events[..n], a);
      ReleasedWereAllocated(limits, events[..n]);
      ApplyBalanced(Run(Empty(limits), events[..n]), events[n],
                    IsCopy(Empty(limits), events[..n], a), Resettled(Empty(limits), events[..n], a), a);
    }
  }

  lemma StartBalanced(limits: Limits, a: Address)
    ensures Balanced(Empty(limits), false, 0, a)
  {
  }

  lemma ReleasedWereAllocated(limits: Limits, events: seq<Event>)
    requires ByPublishing(events)
    ensures FreesAllocated(Run(Empty(limits), events))
    decreases |events|, 1
  {
    forall a | a in Run(Empty(limits), events).memory.frees
      ensures a < |Run(Empty(limits), events).memory.blocks|
    {
      CopyLaw(limits, events, a);
    }
  }

  /** Some call of the run settles an entry that a sweep had released before. */
  predicate EverResettles(b: Broker, events: seq<Event>)
    requires b.Valid()
  {
    events != [] &&
    var n := |events| - 1;
    EverResettles(b, events[..n]) || Resettles(Run(b, events[..n]), events[n])
  }

  predicate Resettles(b: Broker, e: Event) {
    e.Call? && e.queue < |b.queues| && SettlesMarked(b.queues[e.queue].state, e.op)
  }

  lemma {:induction false} ResettledIff(b: Broker, events: seq<Event>) returns (a: Address)
    requires b.Valid()
    ensures EverResettles(b, events) ==> Resettled(b, events, a) > 0
    ensures !EverResettles(b, events) ==> forall x :: Resettled(b, events, x) == 0
  {
    a := 0;
    if events != [] {
      var n := |events| - 1;
      var before, e := Run(b, events[..n]), events[n];
      a := ResettledIff(b, events[..n]);
      if Resettles(before, e) && !EverResettles(b, events[..n]) {
        var s := before.queues[e.queue].state;
        a := s.table[Target(s, e.op)].message;
      }
    }
  }

  /** Every clone is held once or was released once, and never both. */
  ghost predicate CopiesAccounted(limits: Limits, events: seq<Event>) {
    var b := Run(Empty(limits), events);
    forall a :: IsCopy(Empty(limits), events, a) ==> TotalHeld(b.queues, a, |b.queues|) + b.memory.frees[a] == 1
  }

  /** That holds after a run if and only if no ack or reject of it hit an entry that was already marked. */
  lemma CopiesAccountedIff(limits: Limits, events: seq<Event>)
    requires ByPublishing(events)
    ensures CopiesAccounted(limits, events) <==> !EverResettles(Empty(limits), events)
  {
    var a := ResettledIff(Empty(limits), events);
    CopyLaw(limits, events, a);
    forall x | IsCopy(Empty(limits), events, x)
      ensures var b := Run(Empty(limits), events);
              TotalHeld(b.queues, x, |b.queues|) + b.memory.frees[x] == 1 + Resettled(Empty(limits), events, x)
    {
      CopyLaw(limits, events, x);
    }
  }

  // ---------------------------------------------------------------- one live owner

  /** Every message a queue holds is allocated, not released, and in one place of one queue. */
  ghost predicate SoleOwners(b: Broker) {
    forall a :: SoleOwner(b, a)
  }

  ghost predicate SoleOwner(b: Broker, a: Address) {
    var held := TotalHeld(b.queues, a, |b.queues|);
    held == 0 || (held == 1 && b.memory.Live(a))
  }

  /** An entry that a sweep marked and left in the table of queue `q`. */
  predicate IsMarked(b: Broker, q: nat, e: Entry) {
    q < |b.queues| && e in b.queues[q].state.table && e.status == Acknowledged
  }

  /** The messages of marked entries were released. */
  ghost predicate MarksReleased(b: Broker) {
    forall q: nat, e :: IsMarked(b, q, e) ==> e.message in b.memory.frees
  }

  ghost predicate Sound(b: Broker) {
    SoleOwners(b) && MarksReleased(b) && FreesAllocated(b)
  }

  /** A call marks nothing that it does not release. */
  lemma StepMarks(s: State, op: Op, e: Entry)
    requires e in Next(s, op).table && e.status == Acknowledged
    ensures e in s.table || e.message in Step(s, op).released
  {
    match op
    case Enqueue(_) =>
    case Dequeue(_, _) =>
    case Acknowledge(_) =>
      if Target(s, op) < |s.table| {
        PendingMembers(Mark(s.table, Target(s, op)), e);
      }
    case Refuse(_, _) =>
      if Target(s, op) < |s.table| {
        PendingMembers(Mark(s.table, Target(s, op)), e);
      }
    case Timeouts(now, timeout) =>
      if timeout > 0 {
        KeptMembers(s.table, now, timeout, e);
        SweepMarks(s, now, timeout, e);
      }
  }

  lemma SweepMarks(s: State, now: int, timeout: int, e: Entry)
    requires timeout > 0 && e in MarkExpired(s.table, now, timeout)
    ensures e in s.table || e.message in Overdue(s.table, now, timeout)
  {
    var marked := MarkExpired(s.table, now, timeout);
    var i :| 0 <= i < |marked| && marked[i] == e;
    if e !in s.table {
      OverdueMember(s.table, now, timeout, i);
    }
  }

  lemma {:induction false} OverdueMember(table: seq<Entry>, now: int, timeout: int, i: nat)
    requires i < |table| && IsExpired(table[i], now, timeout)
    ensures table[i].message in Overdue(table, now, timeout)
  {
    var n := |table| - 1;
    if i < n {
      OverdueMember(table[..n], now, timeout, i);
    }
  }

  /**
   * The call brings a released message back: a reject with requeue of a marked
   * entry while the ring has room.
   */
  predicate Revives(s: State, op: Op) {
    op.Refuse? && op.requeue && SettlesMarked(s, op) && !s.Full()
  }

  lemma CallSoleOwner(b: Broker, q: nat, op: Op, a: Address)
    requires b.Valid() && Sound(b) && q < |b.queues| && !op.Enqueue? && !Revives(b.queues[q].state, op)
    ensures SoleOwner(CallQueue(b, q, op), a)
    ensures a in CallQueue(b, q, op).memory.frees ==> a < |b.memory.blocks|
  {
    var s := b.queues[q].state;
    CallBalance(b, q, op, a);
    assert SoleOwner(b, a);
    if SettlesMarked(s, op) {
      assert IsMarked(b, q, s.table[Target(s, op)]);
    }
  }

  lemma CallSound(b: Broker, q: nat, op: Op)
    requires b.Valid() && Sound(b) && q < |b.queues| && !op.Enqueue? && !Revives(b.queues[q].state, op)
    ensures Sound(CallQueue(b, q, op))
  {
    var b' := CallQueue(b, q, op);
    forall a: Address
      ensures SoleOwner(b', a)
      ensures a in b'.memory.frees ==> a < |b'.memory.blocks|
    {
      CallSoleOwner(b, q, op, a);
    }
    forall i: nat, e | IsMarked(b', i, e)
      ensures e.message in b'.memory.frees
    {
      if i == q {
        StepMarks(b.queues[q].state, op, e);
      }
      assert IsMarked(b, i, e) || e.message in Step(b.queues[q].state, op).released;
    }
  }

  lemma CallRevives(b: Broker, q: nat, op: Op)
    requires b.Valid() && Sound(b) && q < |b.queues| && Revives(b.queues[q].state, op)
    ensures !SoleOwners(CallQueue(b, q, op))
  {
    var s := b.queues[q].state;
    var e := s.table[Target(s, op)];
    assert IsMarked(b, q, e);
    CallBalance(b, q, op, e.message);
    assert !SoleOwner(CallQueue(b, q, op), e.message);
  }

  lemma IncomingSound(b: Broker, exchange: nat, message: Message)
    requires b.Valid() && Sound(b) && exchange < |b.exchanges|
    ensures Sound(Handle(b, exchange, message).broker)
  {
    var b' := Handle(b, exchange, message).broker;
    forall a: Address
      ensures SoleOwner(b', a)
      ensures a in b'.memory.frees ==> a < |b'.memory.blocks|
      ensures a in b.memory.frees ==> a in b'.memory.frees
    {
      IncomingBalance(b, exchange, message, a);
      assert SoleOwner(b, a);
    }
    forall q: nat, e | IsMarked(b', q, e)
      ensures e.message in b'.memory.frees
    {
      IncomingTables(b, exchange, message, q);
      assert IsMarked(b, q, e);
    }
  }

  lemma DeclareSound(b: Broker, name: CString, capacity: nat)
    requires b.Valid() && Sound(b)
    ensures Sound(CreateQueue(b, name, capacity).0)
  {
    var b' := CreateQueue(b, name, capacity).0;
    forall a: Address
      ensures SoleOwner(b', a)
    {
      DeclareHeld(b, name, capacity, a);
      assert SoleOwner(b, a);
    }
    forall q: nat, e | IsMarked(b', q, e)
      ensures e.message in b'.memory.frees
    {
      assert IsMarked(b, q, e);
    }
  }

  predicate Revival(b: Broker, e: Event) {
    e.Call? && e.queue < |b.queues| && Revives(b.queues[e.queue].state, e.op)
  }

  /** One event, exactly: ownership survives it if and only if it does not revive a released message. */
  lemma ApplySound(b: Broker, e: Event)
    requires b.Valid() && Sound(b) && !(e.Call? && e.op.Enqueue?)
    ensures SoleOwners(Apply(b, e)) <==> !Revival(b, e)
    ensures !Revival(b, e) ==> Sound(Apply(b, e))
  {
    match e
    case DeclareQueue(name, capacity) => DeclareSound(b, name, capacity);
    case Incoming(exchange, message) =>
      if exchange < |b.exchanges| {
        IncomingSound(b, exchange, message);
      }
    case Call(q, op) =>
      if Revival(b, e) {
        CallRevives(b, q, op);
      } else if q < |b.queues| {
        CallSound(b, q, op);
      }
    case _ => SameQueuesSound(b, Apply(b, e));
  }

  lemma SameQueuesSound(b: Broker, b': Broker)
    requires Sound(b) && b'.queues == b.queues && b'.memory == b.memory
    ensures Sound(b')
  {
    forall a: Address
      ensures SoleOwner(b', a)
    {
      assert SoleOwner(b, a);
    }
    assert forall q: nat, e :: IsMarked(b', q, e) ==> IsMarked(b, q, e);
  }

  predicate EverRevives(b: Broker, events: seq<Event>)
    requires b.Valid()
  {
    events != [] &&
    var n := |events| - 1;
    EverRevives(b, events[..n]) || Revival(Run(b, events[..n]), events[n])
  }

  /** Ownership is intact at every point of the run. */
  ghost predicate AlwaysSoleOwners(b: Broker, events: seq<Event>)
    requires b.Valid()
  {
    SoleOwners(Run(b, events)) && (events != [] ==> AlwaysSoleOwners(b, events[..|events| - 1]))
  }

  lemma {:induction false} SoundUnlessRevived(limits: Limits, events: seq<Event>)
    requires ByPublishing(events)
    ensures AlwaysSoleOwners(Empty(limits), events) <==> !EverRevives(Empty(limits), events)
    ensures !EverRevives(Empty(limits), events) ==> Sound(Run(Empty(limits), events))
  {
    hide Apply, Revival, SoleOwners, MarksReleased, FreesAllocated;
    if events == [] {
      StartSound(limits);
    } else {
      var n := |events| - 1;
      SoundUnlessRevived(limits, events[..n]);
      if !EverRevives(Empty(limits), events[..n]) {
        ApplySound(Run(Empty(limits), events[..n]), events[n]);
      }
    }
  }

  lemma StartSound(limits: Limits)
    ensures Sound(Empty(limits))
  {
    forall a: Address
      ensures SoleOwner(Empty(limits), a)
    {
    }
  }

  /**
   * In a run, every message in a ring or outstanding is at every point live
   * and in exactly one place of one queue, if and only if no call of the run
   * rejects a marked entry with requeue while the ring has room.
   */
  lemma OneOwnerIff(limits: Limits, events: seq<Event>)
    requires ByPublishing(events)
    ensures AlwaysSoleOwners(Empty(limits), events) <==> !EverRevives(Empty(limits), events)
  {
    SoundUnlessRevived(limits, events);
  }

  // ---------------------------------------------------------------- runs without a stranding sweep

  /** The call is a sweep of a full queue that finds an expired delivery. */
  predicate Strands(b: Broker, e: Event) {
    e.Call? && e.queue < |b.queues| && StrandsMarks(b.queues[e.queue].state, e.op)
  }

  predicate EverStrands(b: Broker, events: seq<Event>)
    requires b.Valid()
  {
    events != [] &&
    var n := |events| - 1;
    EverStrands(b, events[..n]) || Strands(Run(b, events[..n]), events[n])
  }

  ghost predicate AllClean(b: Broker) {
    forall q :: 0 <= q < |b.queues| ==> Clean(b.queues[q].state.table)
  }

  lemma ApplyClean(b: Broker, e: Event)
    requires b.Valid() && AllClean(b) && !Strands(b, e)
    ensures AllClean(Apply(b, e)) && !Resettles(b, e)
  {
    var b' := Apply(b, e);
    if e.Call? && e.queue < |b.queues| {
      CleanIff(b.queues[e.queue].state, e.op);
    } else if e.Incoming? && e.exchange < |b.exchanges| {
      forall q | 0 <= q < |b'.queues|
        ensures Clean(b'.queues[q].state.table)
      {
        IncomingTables(b, e.exchange, e.message, q);
      }
    }
  }

  /**
   * Without a sweep of a full queue that finds an expired delivery no table
   * ever has marked entries; all laws of ownership hold at every point.
   */
  lemma {:induction false} OneOwner(limits: Limits, events: seq<Event>)
    requires ByPublishing(events) && !EverStrands(Empty(limits), events)
    ensures AllClean(Run(Empty(limits), events))
    ensures !EverResettles(Empty(limits), events) && !EverRevives(Empty(limits), events)
    ensures AlwaysSoleOwners(Empty(limits), events) && CopiesAccounted(limits, events)
  {
    CleanWithoutStranding(limits, events);
    OneOwnerIff(limits, events);
    CopiesAccountedIff(limits, events);
  }

  lemma {:induction false} CleanWithoutStranding(limits: Limits, events: seq<Event>)
    requires !EverStrands(Empty(limits), events)
    ensures AllClean(Run(Empty(limits), events))
    ensures !EverResettles(Empty(limits), events) && !EverRevives(Empty(limits), events)
  {
    if events != [] {
      var n := |events| - 1;
      CleanWithoutStranding(limits, events[..n]);
      ApplyClean(Run(Empty(limits), events[..n]), events[n]);
    }
  }

  // ---------------------------------------------------------------- the routing clone, case by case

  lemma UnboundPublish(b: Broker, message: Message)
    requires b.Valid() && b.exchanges != [] && b.bindings == []
    ensures var clone := |b.memory.blocks| + 1;
            Apply(b, Incoming(0, message)).memory ==
            Mem(b.memory.blocks + [message, message], b.memory.frees + multiset{clone, clone})
  {
    var b2 := b.(memory := b.memory.Alloc(message).Alloc(message));
    assert b2.memory.blocks == b.memory.blocks + [message, message];
    assert RouteTo(b2, 0, |b.memory.blocks| + 1, 0) == Routed(b2, []);
    hide RouteTo;
  }

  /** With no binding the routing clone of a publish, block 1, is released twice. */
  lemma CloneReleasedTwice(limits: Limits, message: Message)
    requires limits.exchanges > 0
    ensures var b := Run(Empty(limits), [DeclareExchange([], Fanout)] + [Incoming(0, message)]);
            b.memory == Mem([message, message], multiset{1, 1})
  {
    var declare := DeclareExchange([], Fanout);
    RunSnoc(Empty(limits), [], declare);
    assert [] + [declare] == [declare];
    RunSnoc(Empty(limits), [declare], Incoming(0, message));
    UnboundPublish(Apply(Empty(limits), declare), message);
    assert [] + [message, message] == [message, message];
    hide Run, Handle, CallQueue;
  }

  /** With one copy placed it is never released, and no queue holds it; the queue holds block 2. */
  lemma CloneNeverReleased(limits: Limits, message: Message)
    requires limits.exchanges > 0 && limits.queues > 0 && limits.bindings > 0
    ensures var b := Run(Empty(limits), OneQueueSetup([], 1) + [Incoming(0, message)]);
            && b.memory == Mem([message, message, message], multiset{})
            && b.queues == [NamedQueue([], State(1, [2], [], 100, 1))]
  {
    hide Run, Apply, OneQueueSetup;
    OneQueueReached(limits, [], 1);
    RunSnoc(Empty(limits), OneQueueSetup([], 1), Incoming(0, message));
    OneQueuePublish(limits, [], 1, message);
    assert Append(Initial(1), 2).ring == [2];
  }

  // ---------------------------------------------------------------- a released message that comes back

  /**
   * Two publishes to a queue of capacity 1, the first message out when the
   * queue is swept, the second one out when the first is rejected with requeue.
   */
  function Revive(message: Message): seq<Event> {
    OneQueueSetup([], 1) + [Incoming(0, message)] + [Call(0, Dequeue(0, true))] + [Incoming(0, message)]
    + [Call(0, Timeouts(31, 30))] + [Call(0, Dequeue(31, true))] + [Call(0, Refuse(1, true))]
  }

  lemma SetupPublishes(name: CString, capacity: nat)
    ensures ByPublishing(OneQueueSetup(name, capacity))
  {
  }

  lemma PublishingSnoc(events: seq<Event>, e: Event)
    requires ByPublishing(events) && !(e.Call? && e.op.Enqueue?)
    ensures ByPublishing(events + [e])
  {
  }

  /** The broker after the first publish and its delivery. */
  lemma FirstDelivered(limits: Limits, message: Message)
    requires limits.exchanges > 0 && limits.queues > 0 && limits.bindings > 0
    ensures var b := Run(Empty(limits), OneQueueSetup([], 1) + [Incoming(0, message)] + [Call(0, Dequeue(0, true))]);
            && OneFanout(b) && b.memory == Mem([message, message, message], multiset{})
            && b.queues == [NamedQueue([], Small([], [First(2, Delivered)]))]
  {
    var r0 := OneQueueSetup([], 1);
    var r1 := r0 + [Incoming(0, message)];
    hide Run, Apply, Step, OneQueueSetup, OneFanout, Small, First, Append;
    SmallCalls(2, 5);
    OneQueueReached(limits, [], 1);
    RunSnoc(Empty(limits), r0, Incoming(0, message));
    OneQueuePublish(limits, [], 1, message);
    RunSnoc(Empty(limits), r1, Call(0, Dequeue(0, true)));
    FanoutCall(Run(Empty(limits), r1), Dequeue(0, true));
  }

  lemma SmallHasRoom(table: seq<Entry>)
    ensures !Small([], table).Full()
  {
  }

  /** The broker after the second publish. */
  lemma TwoPublished(limits: Limits, message: Message)
    requires limits.exchanges > 0 && limits.queues > 0 && limits.bindings > 0
    ensures var r2 := OneQueueSetup([], 1) + [Incoming(0, message)] + [Call(0, Dequeue(0, true))];
            var b := Run(Empty(limits), r2 + [Incoming(0, message)]);
            && OneFanout(b) && b.memory.frees == multiset{}
            && b.queues == [NamedQueue([], Small([5], [First(2, Delivered)]))]
            && ByPublishing(r2 + [Incoming(0, message)])
  {
    hide Run, Apply, Step, OneQueueSetup, ByPublishing, OneFanout, Small, First, Append;
    var r1 := OneQueueSetup([], 1) + [Incoming(0, message)];
    var r2 := r1 + [Call(0, Dequeue(0, true))];
    SetupPublishes([], 1);
    PublishingSnoc(OneQueueSetup([], 1), Incoming(0, message));
    PublishingSnoc(r1, Call(0, Dequeue(0, true)));
    PublishingSnoc(r2, Incoming(0, message));
    FirstDelivered(limits, message);
    RunSnoc(Empty(limits), r2, Incoming(0, message));
    SmallHasRoom([First(2, Delivered)]);
    FanoutPublish(Run(Empty(limits), r2), message);
    SmallCalls(2, 5);
  }

  /** What follows on any such broker. */
  lemma RevivalFollows(limits: Limits, r3: seq<Event>)
    requires ByPublishing(r3)
    requires var b := Run(Empty(limits), r3);
             && OneFanout(b) && b.memory.frees == multiset{}
             && b.queues == [NamedQueue([], Small([5], [First(2, Delivered)]))]
    ensures var r5 := r3 + [Call(0, Timeouts(31, 30))] + [Call(0, Dequeue(31, true))];
            var b5, b6 := Run(Empty(limits), r5), Run(Empty(limits), r5 + [Call(0, Refuse(1, true))]);
            && ByPublishing(r5 + [Call(0, Refuse(1, true))])
            && OneFanout(b5) && Revives(b5.queues[0].state, Refuse(1, true))
            && OneFanout(b6) && b6.queues[0].state.ring == [2] && b6.memory.frees == multiset{2}
  {
    var r4 := r3 + [Call(0, Timeouts(31, 30))];
    var r5 := r4 + [Call(0, Dequeue(31, true))];
    PublishingSnoc(r3, Call(0, Timeouts(31, 30)));
    PublishingSnoc(r4, Call(0, Dequeue(31, true)));
    PublishingSnoc(r5, Call(0, Refuse(1, true)));
    hide Run, Apply, Step, ByPublishing, SettlesMarked, Small, First, Second;
    SmallCalls(2, 5);
    SweepMarksOnly(2, 5);
    SettlesFirst(2, 5);
    RunSnoc(Empty(limits), r3, Call(0, Timeouts(31, 30)));
    FanoutCall(Run(Empty(limits), r3), Timeouts(31, 30));
    RunSnoc(Empty(limits), r4, Call(0, Dequeue(31, true)));
    FanoutCall(Run(Empty(limits), r4), Dequeue(31, true));
    RunSnoc(Empty(limits), r5, Call(0, Refuse(1, true)));
    FanoutCall(Run(Empty(limits), r5), Refuse(1, true));
  }

  lemma RevivedIsNotOwned(b: Broker, a: Address)
    requires OneFanout(b) && b.queues[0].state.ring == [a] && a in b.memory.frees
    ensures !SoleOwners(b)
  {
    assert TotalHeld(b.queues, a, 1) >= Held(b.queues[0].state, a);
    assert !SoleOwner(b, a);
  }

  /** That run brings a released message back: block 2 is in the ring and was released. */
  lemma RevivalIsReached(limits: Limits, message: Message)
    requires limits.exchanges > 0 && limits.queues > 0 && limits.bindings > 0
    ensures var events := Revive(message);
            var b := Run(Empty(limits), events);
            && ByPublishing(events)
            && EverResettles(Empty(limits), events) && EverRevives(Empty(limits), events)
            && |b.queues| == 1 && b.queues[0].state.ring == [2] && b.memory.frees == multiset{2}
            && !SoleOwners(b) && !CopiesAccounted(limits, events)
  {
    var e := Call(0, Refuse(1, true));
    var r3 := OneQueueSetup([], 1) + [Incoming(0, message)] + [Call(0, Dequeue(0, true))] + [Incoming(0, message)];
    var r5 := r3 + [Call(0, Timeouts(31, 30))] + [Call(0, Dequeue(31, true))];
    assert Revive(message) == r5 + [e];
    TwoPublished(limits, message);
    RevivalFollows(limits, r3);
    hide Run, OneQueueSetup, Revive, Small, SettlesMarked;
    assert (r5 + [e])[..|r5|] == r5;
    assert EverRevives(Empty(limits), r5 + [e]) && EverResettles(Empty(limits), r5 + [e]);
    RevivedIsNotOwned(Run(Empty(limits), r5 + [e]), 2);
    CopiesAccountedIff(limits, r5 + [e]);
  }
}
