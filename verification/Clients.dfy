/** What one client is sent, whatever it registered for, over whole runs of the broker. */
module Clients {
  import opened Sequences
  import opened Memory
  import opened QueueModel
  import opened QueueRuns
  import opened Routing
  import opened BrokerRuns

  /** The messages sent, or tried, to client `c`, in order, for all its registrations: what its socket is given. */
  function SentTo(attempts: seq<Attempt>, c: nat): seq<Message> {
    if attempts == [] then [] else
    var before, last := SentTo(attempts[..|attempts| - 1], c), attempts[|attempts| - 1];
    if last.client == c then before + [last.message] else before
  }

  lemma {:induction false} SentToConcat(a: seq<Attempt>, b: seq<Attempt>, c: nat)
    ensures SentTo(a + b, c) == SentTo(a, c) + SentTo(b, c)
  {
    if b == [] {
      assert a + b == a;
    } else {
      var n := |b| - 1;
      SentToConcat(a, b[..n], c);
      assert (a + b)[..|a| + n] == a + b[..n];
    }
  }

  lemma SentToSnoc(attempts: seq<Attempt>, a: Attempt, c: nat)
    ensures SentTo(attempts + [a], c) == if a.client == c then SentTo(attempts, c) + [a.message]
                                         else SentTo(attempts, c)
  {
    assert (attempts + [a])[..|attempts|] == attempts;
  }

  predicate IsLive(live: seq<bool>, c: nat) {
    c < |live| && live[c]
  }

  /** How many registrations client `c` has for that name. */
  function Subscriptions(registrations: seq<Registration>, c: nat, name: CString): nat {
    if registrations == [] then 0 else
    var last := registrations[|registrations| - 1];
    Subscriptions(registrations[..|registrations| - 1], c, name) + Bit(last == Registration(c, name))
  }

  /** One copy that reaches a queue is sent to a live client once for every registration it has for that queue. */
  lemma {:induction false} ForwardedTo(registrations: seq<Registration>, live: seq<bool>, name: CString,
        message: Message, c: nat)
    requires forall i :: 0 <= i < |registrations| ==> registrations[i].client < |live|
    ensures SentTo(AttemptsFor(registrations, live, name, message), c) ==
            Copies(message, if IsLive(live, c) then Subscriptions(registrations, c, name) else 0)
  {
    if registrations != [] {
      var n := |registrations| - 1;
      ForwardedTo(registrations[..n], live, name, message, c);
      SentToSnoc(AttemptsFor(registrations[..n], live, name, message), Attempt(n, registrations[n].client, message), c);
    }
  }

  // ---------------------------------------------------------------- what a publish sends to a client

  /** For each of the first `k` queues, the copies placed there times the client's registrations for it. */
  function FanOut(b: Broker, placed: seq<Placement>, c: nat, k: nat): nat
    requires k <= |b.queues|
  {
    if k == 0 then 0 else
    FanOut(b, placed, c, k - 1) + |PlacedIn(placed, k - 1)| * Subscriptions(b.registrations, c, b.queues[k - 1].name)
  }

  lemma {:induction false} FanOutNone(b: Broker, c: nat, k: nat)
    requires k <= |b.queues|
    ensures FanOut(b, [], c, k) == 0
  {
    if k > 0 {
      FanOutNone(b, c, k - 1);
    }
  }

  lemma {:induction false} FanOutSnoc(b: Broker, placed: seq<Placement>, p: Placement, c: nat, k: nat)
    requires k <= |b.queues|
    ensures FanOut(b, placed + [p], c, k) ==
            FanOut(b, placed, c, k) + if p.queue < k then Subscriptions(b.registrations, c, b.queues[p.queue].name)
                                      else 0
  {
    if k > 0 {
      FanOutSnoc(b, placed, p, c, k - 1);
      PlacedInSnoc(placed, p, k - 1);
      Distribute(|PlacedIn(placed, k - 1)|, Subscriptions(b.registrations, c, b.queues[k - 1].name));
    }
  }

  lemma Distribute(n: nat, t: nat)
    ensures (n + 1) * t == n * t + t
  {
  }

  function Reach(b: Broker, placed: seq<Placement>, c: nat): nat {
    if IsLive(b.live, c) then FanOut(b, placed, c, |b.queues|) else 0
  }

  lemma PlaceReaches(b: Broker, p: Routed, target: nat, m: Address, c: nat)
    requires p.broker.Valid() && target < |p.broker.queues| && m < |p.broker.memory.blocks| && SameSetup(b, p.broker)
    ensures var message, after := p.broker.memory.blocks[m], Place(p, target, m);
            && Reach(b, after.placed, c) >= Reach(b, p.placed, c)
            && SentTo(after.broker.attempts, c) ==
               SentTo(p.broker.attempts, c) + Copies(message, Reach(b, after.placed, c) - Reach(b, p.placed, c))
  {
    hide AttemptsFor, SentTo, FanOut;
    var name, message, clone := p.broker.queues[target].name, p.broker.memory.blocks[m], |p.broker.memory.blocks|;
    SentToConcat(p.broker.attempts, AttemptsFor(b.registrations, b.live, name, message), c);
    ForwardedTo(b.registrations, b.live, name, message, c);
    FanOutSnoc(b, p.placed, Placement(target, clone), c, |b.queues|);
    assert SentTo(p.broker.attempts, c) + Copies(message, 0) == SentTo(p.broker.attempts, c);
  }

  lemma {:induction false} RouteReaches(b: Broker, exchange: nat, m: Address, n: nat, c: nat)
    requires b.Valid() && exchange < |b.exchanges| && m < |b.memory.blocks| && n <= |b.bindings|
    ensures var p := RouteTo(b, exchange, m, n);
            SentTo(p.broker.attempts, c) == SentTo(b.attempts, c) + Copies(b.memory.blocks[m], Reach(b, p.placed, c))
  {
    var sent, message := SentTo(b.attempts, c), b.memory.blocks[m];
    if n == 0 {
      FanOutNone(b, c, |b.queues|);
      assert sent + Copies(message, 0) == sent;
    } else {
      hide Place, Reach, SentTo;
      RouteReaches(b, exchange, m, n - 1, c);
      var p := RouteTo(b, exchange, m, n - 1);
      if Applies(b, n - 1, exchange, message.routingKey) {
        PlaceReaches(b, p, b.bindings[n - 1].queue, m, c);
        var k, k' := Reach(b, p.placed, c), Reach(b, RouteTo(b, exchange, m, n).placed, c);
        assert sent + Copies(message, k) + Copies(message, k' - k) == sent + Copies(message, k');
      }
    }
  }

  /**
   * For each of the first `k` queues, min(free slots, matching bindings to it)
   * times the client's registrations for it.
   */
  function Due(b: Broker, exchange: nat, routingKey: CString, c: nat, k: nat): nat
    requires b.Valid() && exchange < |b.exchanges| && k <= |b.queues|
  {
    if k == 0 then 0 else
    Due(b, exchange, routingKey, c, k - 1)
    + (Min(Room(b.queues[k - 1].state), Matching(b, exchange, routingKey, k - 1, |b.bindings|))
       * Subscriptions(b.registrations, c, b.queues[k - 1].name))
  }

  /** What an event sends to client `c`. */
  function SentBy(b: Broker, e: Event, c: nat): seq<Message>
    requires b.Valid()
  {
    if e.Incoming? && e.exchange < |b.exchanges| && IsLive(b.live, c)
    then Copies(e.message, Due(b, e.exchange, e.message.routingKey, c, |b.queues|))
    else []
  }

  function SentDuring(b: Broker, events: seq<Event>, c: nat): seq<Message>
    requires b.Valid()
  {
    if events == [] then [] else
    var n := |events| - 1;
    SentDuring(b, events[..n], c) + SentBy(Run(b, events[..n]), events[n], c)
  }

  /** The copies a publish places into one queue, counted by bindings. */
  lemma HandlePlaces(b: Broker, exchange: nat, message: Message, q: nat)
    requires b.Valid() && exchange < |b.exchanges| && q < |b.queues|
    ensures |PlacedIn(Handle(b, exchange, message).placed, q)| ==
            Min(Room(b.queues[q].state), Matching(b, exchange, message.routingKey, q, |b.bindings|))
  {
    var b1 := b.(memory := b.memory.Alloc(message));
    var b2 := b1.(memory := b1.memory.Alloc(message));
    ExactRouting(b2, exchange, |b.memory.blocks| + 1, q);
    SameMatchingTo(b, b2, exchange, message.routingKey, q, |b.bindings|);
  }

  lemma {:induction false} FanOutIsDue(b: Broker, exchange: nat, message: Message, c: nat, k: nat)
    requires b.Valid() && exchange < |b.exchanges| && k <= |b.queues|
    ensures FanOut(b, Handle(b, exchange, message).placed, c, k) == Due(b, exchange, message.routingKey, c, k)
  {
    hide Handle;
    if k > 0 {
      FanOutIsDue(b, exchange, message, c, k - 1);
      HandlePlaces(b, exchange, message, k - 1);
    }
  }

  lemma {:induction false} SameFanOut(b: Broker, b': Broker, placed: seq<Placement>, c: nat, k: nat)
    requires b'.queues == b.queues && b'.registrations == b.registrations && k <= |b.queues|
    ensures FanOut(b', placed, c, k) == FanOut(b, placed, c, k)
  {
    if k > 0 {
      SameFanOut(b, b', placed, c, k - 1);
    }
  }

  lemma HandleSendsTo(b: Broker, exchange: nat, message: Message, c: nat)
    requires b.Valid() && exchange < |b.exchanges|
    ensures var p := Handle(b, exchange, message);
            SentTo(p.broker.attempts, c) == SentTo(b.attempts, c) + Copies(message, Reach(b, p.placed, c))
  {
    hide RouteTo, SentTo, FanOut;
    var b1 := b.(memory := b.memory.Alloc(message));
    var b2 := b1.(memory := b1.memory.Alloc(message));
    RouteReaches(b2, exchange, |b.memory.blocks| + 1, |b.bindings|, c);
    SameFanOut(b, b2, Handle(b, exchange, message).placed, c, |b.queues|);
  }

  lemma ApplySendsTo(b: Broker, e: Event, c: nat)
    requires b.Valid()
    ensures SentTo(Apply(b, e).attempts, c) == SentTo(b.attempts, c) + SentBy(b, e, c)
  {
    hide Handle, FanOut, Due, SentTo;
    if e.Incoming? && e.exchange < |b.exchanges| {
      HandleSendsTo(b, e.exchange, e.message, c);
      FanOutIsDue(b, e.exchange, e.message, c, |b.queues|);
    } else {
      assert SentTo(b.attempts, c) + [] == SentTo(b.attempts, c);
    }
  }

  /**
   * Over every run, for every client, whether it has no, one or many
   * registrations and whether it stays connected or not: every publish sends
   * it, for each queue, min(free slots, matching bindings) copies once for
   * every registration it has for that queue, and nothing else is sent.
   */
  lemma {:induction false} ClientLog(b: Broker, events: seq<Event>, c: nat)
    requires b.Valid()
    ensures SentTo(Run(b, events).attempts, c) == SentTo(b.attempts, c) + SentDuring(b, events, c)
  {
    hide Apply, SentTo, SentBy;
    if events == [] {
      assert SentTo(b.attempts, c) + [] == SentTo(b.attempts, c);
    } else {
      var n := |events| - 1;
      ClientLog(b, events[..n], c);
      ApplySendsTo(Run(b, events[..n]), events[n], c);
      Regroup(SentTo(b.attempts, c), SentDuring(b, events[..n], c), SentBy(Run(b, events[..n]), events[n], c));
    }
  }

  /** A disconnect clears the flag of its slot and of no other. */
  lemma DisconnectClears(b: Broker, c: nat, isLive: bool)
    requires b.Valid()
    ensures var b' := Apply(b, SetLive(c, isLive));
            && b' == b.(live := b'.live) && |b'.live| == |b.live|
            && forall i :: 0 <= i < |b.live| ==> b'.live[i] == if i == c then isLive else b.live[i]
  {
  }

  lemma ApplyKeepsDead(b: Broker, e: Event, c: nat)
    requires b.Valid() && !IsLive(b.live, c) && !(e.SetLive? && e.slot == c && e.isLive)
    ensures !IsLive(Apply(b, e).live, c)
  {
  }

  lemma {:induction false} NothingWhileDead(b: Broker, events: seq<Event>, c: nat)
    requires b.Valid() && !IsLive(b.live, c)
    requires forall i :: 0 <= i < |events| ==> !(events[i].SetLive? && events[i].slot == c && events[i].isLive)
    ensures SentDuring(b, events, c) == [] && !IsLive(Run(b, events).live, c)
  {
    hide Apply, IsLive;
    if events != [] {
      var n := |events| - 1;
      NothingWhileDead(b, events[..n], c);
      ApplyKeepsDead(Run(b, events[..n]), events[n], c);
    }
  }

  /** After a client's disconnect, and until its slot is taken again, nothing is sent to it. */
  lemma DisconnectedGetsNothing(b: Broker, c: nat, events: seq<Event>)
    requires b.Valid()
    requires forall i :: 0 <= i < |events| ==> !(events[i].SetLive? && events[i].slot == c && events[i].isLive)
    ensures SentTo(Run(Apply(b, SetLive(c, false)), events).attempts, c) == SentTo(b.attempts, c)
  {
    var b' := Apply(b, SetLive(c, false));
    DisconnectClears(b, c, false);
    NothingWhileDead(b', events, c);
    ClientLog(b', events, c);
    assert SentTo(b.attempts, c) + [] == SentTo(b.attempts, c);
  }

  // ---------------------------------------------------------------- a client with one registration

  /** `r` is the only registration of its client. */
  ghost predicate Sole(registrations: seq<Registration>, r: nat) {
    && r < |registrations|
    && forall i :: 0 <= i < |registrations| && i != r ==> registrations[i].client != registrations[r].client
  }

  lemma {:induction false} NoSubscriptions(registrations: seq<Registration>, c: nat, name: CString)
    requires forall i :: 0 <= i < |registrations| ==> registrations[i].client != c
    ensures Subscriptions(registrations, c, name) == 0
  {
    if registrations != [] {
      NoSubscriptions(registrations[..|registrations| - 1], c, name);
    }
  }

  lemma {:induction false} SoleSubscription(registrations: seq<Registration>, r: nat, name: CString)
    requires Sole(registrations, r)
    ensures Subscriptions(registrations, registrations[r].client, name) == Bit(registrations[r].queueName == name)
  {
    var n := |registrations| - 1;
    if r == n {
      NoSubscriptions(registrations[..n], registrations[r].client, name);
    } else {
      SoleSubscription(registrations[..n], r, name);
    }
  }

  lemma {:induction false} OneOfSubscriptions(registrations: seq<Registration>, i: nat)
    requires i < |registrations|
    ensures Subscriptions(registrations, registrations[i].client, registrations[i].queueName) >= 1
  {
    if i < |registrations| - 1 {
      OneOfSubscriptions(registrations[..|registrations| - 1], i);
    }
  }

  lemma {:induction false} TwoOfSubscriptions(registrations: seq<Registration>, i: nat, j: nat)
    requires i < |registrations| && j < |registrations| && i != j && registrations[i] == registrations[j]
    ensures Subscriptions(registrations, registrations[i].client, registrations[i].queueName) >= 2
  {
    var n := |registrations| - 1;
    if i < n && j < n {
      TwoOfSubscriptions(registrations[..n], i, j);
    } else {
      OneOfSubscriptions(registrations[..n], if i < n then i else j);
    }
  }

  /** Every copy, under whatever name it is forwarded, is sent to the client of `r` just as it is sent for `r`. */
  ghost predicate StreamIsLog(b: Broker, r: nat)
    requires b.Valid() && r < |b.registrations|
  {
    forall name, m :: SameAsLog(b, r, name, m)
  }

  ghost predicate SameAsLog(b: Broker, r: nat, name: CString, m: Message)
    requires b.Valid() && r < |b.registrations|
  {
    var attempts := AttemptsFor(b.registrations, b.live, name, m);
    SentTo(attempts, b.registrations[r].client) == SentFor(attempts, r)
  }

  /** For a live client, that is so if and only if `r` is its only registration. */
  lemma StreamIsLogIff(b: Broker, r: nat)
    requires b.Valid() && r < |b.registrations| && IsLive(b.live, b.registrations[r].client)
    ensures StreamIsLog(b, r) <==> Sole(b.registrations, r)
  {
    var c := b.registrations[r].client;
    forall name, m
      ensures SameAsLog(b, r, name, m) <==>
              Subscriptions(b.registrations, c, name) == Bit(b.registrations[r].queueName == name)
    {
      ForwardedTo(b.registrations, b.live, name, m, c);
      OneAttempt(b.registrations, b.live, name, m, r);
      assert Copies(m, 1) == [m];
    }
    if Sole(b.registrations, r) {
      forall name, m
        ensures SameAsLog(b, r, name, m)
      {
        SoleSubscription(b.registrations, r, name);
      }
    } else {
      var i :| 0 <= i < |b.registrations| && i != r && b.registrations[i].client == c;
      var other := b.registrations[i];
      OneOfSubscriptions(b.registrations, i);
      if other == b.registrations[r] {
        TwoOfSubscriptions(b.registrations, i, r);
      }
      assert !SameAsLog(b, r, other.queueName, Message([], [], [], 0, 0, 0));
    }
  }

  lemma {:induction false} DueOfSole(b: Broker, exchange: nat, routingKey: CString, r: nat, q: nat, k: nat)
    requires b.Valid() && UniqueNames(b) && Serves(b, r, q) && Sole(b.registrations, r)
    requires exchange < |b.exchanges| && k <= |b.queues|
    ensures Due(b, exchange, routingKey, b.registrations[r].client, k) ==
            if q < k then Min(Room(b.queues[q].state), Matching(b, exchange, routingKey, q, |b.bindings|)) else 0
  {
    if k > 0 {
      DueOfSole(b, exchange, routingKey, r, q, k - 1);
      SoleSubscription(b.registrations, r, b.queues[k - 1].name);
    }
  }

  lemma SentBySole(b: Broker, e: Event, r: nat, q: nat)
    requires b.Valid() && UniqueNames(b) && Serves(b, r, q) && Sole(b.registrations, r)
    ensures SentBy(b, e, b.registrations[r].client) == Enqueued(b, e, q)
  {
    if e.Incoming? && e.exchange < |b.exchanges| {
      DueOfSole(b, e.exchange, e.message.routingKey, r, q, |b.queues|);
      HandlePlaces(b, e.exchange, e.message, q);
    }
  }

  predicate Joins(b: Broker, r: nat, e: Event)
    requires r < |b.registrations|
  {
    e.Subscribe? && e.client == b.registrations[r].client
  }

  lemma ApplyKeepsSole(b: Broker, e: Event, r: nat)
    requires b.Valid() && Sole(b.registrations, r) && !Joins(b, r, e)
    ensures Sole(Apply(b, e).registrations, r)
  {
  }

  /**
   * A client with one registration, that stays connected and does not register
   * again, is sent what routing enqueues into its queue, and nothing else.
   */
  lemma {:induction false} SoleConsumerLog(b: Broker, events: seq<Event>, r: nat, q: nat)
    requires b.Valid() && UniqueNames(b) && Serves(b, r, q) && Sole(b.registrations, r)
    requires forall i :: 0 <= i < |events| ==> !Disconnects(b, r, events[i]) && !Joins(b, r, events[i])
    ensures SentDuring(b, events, b.registrations[r].client) == EnqueuedDuring(b, events, q)
    ensures Sole(Run(b, events).registrations, r)
  {
    hide Apply, Sole, SentBy, Enqueued;
    if events != [] {
      var n := |events| - 1;
      var before := Run(b, events[..n]);
      SoleConsumerLog(b, events[..n], r, q);
      ConsumerLog(b, events[..n], r, q);
      NamesStayUnique(b, events[..n]);
      RunGrows(b, events[..n]);
      SentBySole(before, events[n], r, q);
      assert !Joins(b, r, events[n]);
      ApplyKeepsSole(before, events[n], r);
    }
  }

  /**
   * A client that registers twice for one queue is another matter: it is sent
   * every copy twice, while the log of each registration has it once.
   */
  lemma RegisteredTwice(m: Message)
    ensures var setup := OneQueueSetup([], 1) + [SetLive(0, true)] + [Subscribe(0, [])] + [Subscribe(0, [])];
            var b := Run(Empty(Limits(1, 1, 1, 2)), setup);
            var attempts := Apply(b, Incoming(0, m)).attempts;
            && UniqueNames(b) && Serves(b, 0, 0) && Serves(b, 1, 0) && !Sole(b.registrations, 0)
            && SentTo(attempts, 0) == [m, m]
            && SentFor(attempts, 0) == [m]
  {
    var limits := Limits(1, 1, 1, 2);
    var r := Registration(0, []);
    var b := OneQueue(limits, [], 1).(live := [true, false], registrations := [r, r]);
    TwiceReached(limits);
    TwiceDue(b);
    ApplySendsTo(b, Incoming(0, m), 0);
    ApplySends(b, Incoming(0, m), 0, 0);
    HandlePlaces(b, 0, m, 0);
    assert Copies(m, 2) == [m, m] && Copies(m, 1) == [m];
    hide Apply, Handle, Due;
  }

  lemma Connects(b: Broker, c: nat)
    requires b.Valid() && c < |b.live|
    ensures Apply(b, SetLive(c, true)) == b.(live := b.live[c := true])
  {
  }

  lemma Subscribes(b: Broker, c: nat, name: CString)
    requires b.Valid() && c < |b.live| && |b.registrations| < b.limits.connections && |name| <= NAME_LENGTH
    ensures Apply(b, Subscribe(c, name)) == b.(registrations := b.registrations + [Registration(c, name)])
  {
  }

  lemma TwiceReached(limits: Limits)
    requires limits == Limits(1, 1, 1, 2)
    ensures Run(Empty(limits), OneQueueSetup([], 1) + [SetLive(0, true)] + [Subscribe(0, [])] + [Subscribe(0, [])]) ==
            OneQueue(limits, [], 1).(live := [true, false], registrations := [Registration(0, []), Registration(0, [])])
  {
    var setup := OneQueueSetup([], 1);
    hide Run, OneQueueSetup, Apply;
    var b, r := OneQueue(limits, [], 1), Registration(0, []);
    var b1 := b.(live := [true, false]);
    OneQueueReached(limits, [], 1);
    Connects(b, 0);
    assert b.live[0 := true] == [true, false];
    Subscribes(b1, 0, []);
    Subscribes(b1.(registrations := [] + [r]), 0, []);
    assert [] + [r] + [r] == [r, r];
    RunSnoc(Empty(limits), setup, SetLive(0, true));
    RunSnoc(Empty(limits), setup + [SetLive(0, true)], Subscribe(0, []));
    RunSnoc(Empty(limits), setup + [SetLive(0, true)] + [Subscribe(0, [])], Subscribe(0, []));
  }

  lemma TwiceDue(b: Broker)
    requires b.Valid() && b.exchanges == [Exchange([], Fanout)] && b.bindings == [Binding(0, 0, None)]
    requires b.queues == [NamedQueue([], Initial(1))] && b.registrations == [Registration(0, []), Registration(0, [])]
    ensures forall key :: Matching(b, 0, key, 0, 1) == 1 && Due(b, 0, key, 0, 1) == 2
  {
    var r := Registration(0, []);
    assert [r, r][..1] == [r] && [r][..0] == [];
    assert Subscriptions([r], 0, []) == 1 && Subscriptions([r, r], 0, []) == 2;
  }
}
