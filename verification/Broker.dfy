/** The broker of `src/core/broker.c`, with its registries updated in place. */
module Brokers {
  import opened Sequences
  import opened Memory
  import opened Topics
  import opened Queues
  import R = Routing
  import QueueModel
  import Q = QueueRuns
  import Runs = BrokerRuns

  /** Valid queues, all of whose parts are in `repr`. */
  ghost predicate Within(queues: seq<Queue>, repr: set<object>)
    reads repr
  {
    forall i :: 0 <= i < |queues| ==>
      queues[i] in repr && queues[i].messages in repr && queues[i].unacked in repr && queues[i].Valid()
  }

  ghost predicate Apart(p: Queue, q: Queue)
    reads p, q
  {
    p != q && p.messages != q.messages && p.unacked != q.unacked
  }

  ghost predicate AllApart(queues: seq<Queue>, repr: set<object>)
    requires Within(queues, repr)
    reads repr
  {
    forall i, j :: 0 <= i < |queues| && 0 <= j < |queues| && i != j ==> Apart(queues[i], queues[j])
  }

  ghost function States(queues: seq<Queue>, repr: set<object>): (states: seq<R.NamedQueue>)
    requires Within(queues, repr)
    reads repr
    ensures |states| == |queues|
    ensures forall i :: 0 <= i < |queues| ==> states[i] == R.NamedQueue(queues[i].name, queues[i].Abs())
  {
    if queues == [] then [] else
    var n := |queues| - 1;
    States(queues[..n], repr) + [R.NamedQueue(queues[n].name, queues[n].Abs())]
  }

  lemma StatesSnoc(queues: seq<Queue>, q: Queue, repr: set<object>, repr': set<object>)
    requires Within(queues, repr) && q.Valid() && repr' == repr + {q, q.messages, q.unacked}
    requires AllApart(queues, repr) && forall i :: 0 <= i < |queues| ==> Apart(queues[i], q)
    ensures Within(queues + [q], repr') && AllApart(queues + [q], repr')
    ensures States(queues + [q], repr') == States(queues, repr) + [R.NamedQueue(q.name, q.Abs())]
  {
    assert forall i :: 0 <= i < |queues| ==> (queues + [q])[i] == queues[i];
  }

  /** A dequeue releases nothing. */
  lemma DequeueReleasesNothing(b: R.Broker, queue: nat, now: int, reallocOk: bool)
    requires b.Valid() && queue < |b.queues|
    ensures var q := b.queues[queue];
            var o := QueueModel.TryDequeue(q.state, now, reallocOk);
            && Runs.CallQueue(b, queue, Q.Dequeue(now, reallocOk)) ==
               b.(queues := b.queues[queue := R.NamedQueue(q.name, o.next)])
            && Q.Step(q.state, Q.Dequeue(now, reallocOk)) == o
            && (o.done ==> q.state.ring != [])
  {
  }

  class Broker {
    const limits: R.Limits
    const heap: Heap
    var queues: seq<Queue>
    var exchanges: seq<R.Exchange>
    var bindings: seq<R.Binding>
    var registrations: seq<R.Registration>
    var live: seq<bool>
    var attempts: seq<R.Attempt>
    ghost var repr: set<object>

    /** Queues do not share anything but the heap. */
    ghost predicate Valid()
      reads this, repr
    {
      && this !in repr && heap !in repr
      && Within(queues, repr)
      && (forall i :: 0 <= i < |queues| ==> queues[i].heap == heap)
      && AllApart(queues, repr)
      && (forall i :: 0 <= i < |bindings| ==> bindings[i].exchange < |exchanges| && bindings[i].queue < |queues|)
      && (forall i :: 0 <= i < |registrations| ==> registrations[i].client < |live|)
    }

    ghost function Abs(): (b: R.Broker)
      requires Valid()
      reads this, heap, repr
      ensures b.Valid()
    {
      R.Broker(limits, heap.Value(), States(queues, repr), exchanges, bindings, registrations, live, attempts)
    }

    constructor (limits: R.Limits)
      ensures Valid() && fresh(heap) && queues == []
      ensures Abs() == R.Empty(limits)
    {
      this.limits := limits;
      heap := new Heap();
      queues, exchanges, bindings, registrations := [], [], [], [];
      live := seq(limits.connections, _ => false);
      attempts := [];
      repr := {};
    }

    /** `broker_create_queue`. */
    method CreateQueue(name: CString, capacity: nat) returns (index: Option<nat>)
      requires Valid()
      modifies `queues, `repr
      ensures Valid() && fresh(repr - old(repr))
      ensures var r := R.CreateQueue(old(Abs()), name, capacity); Abs() == r.0 && index == r.1
    {
      var i := SearchQueue(name);
      if i < |queues| {
        return Some(i);
      }
      if |queues| >= limits.queues || capacity == 0 {
        return None;
      }
      AppendQueue(name, capacity);
      return Some(i);
    }

    method AppendQueue(name: CString, capacity: nat)
      requires Valid() && 0 < capacity
      modifies `queues, `repr
      ensures Valid() && fresh(repr - old(repr))
      ensures Abs() == old(Abs()).(queues := old(Abs()).queues + [R.NamedQueue(name, QueueModel.Initial(capacity))])
    {
      var q := NewQueue(name, capacity);
      Attach(q);
    }

    /** The search loop of `broker_create_queue` and `broker_get_queue`. */
    method SearchQueue(name: CString) returns (i: nat)
      requires Valid()
      ensures i == IndexOf(Abs().queues, R.IsQueue(name), 0)
    {
      i := 0;
      ghost var states := States(queues, repr);
      while i < |queues| && queues[i].name != name
        invariant i <= |queues| == |states|
        invariant IndexOf(states, R.IsQueue(name), 0) == IndexOf(states, R.IsQueue(name), i)
      {
        i := i + 1;
      }
    }

    /** `queue_create` for a capacity that is not 0. */
    method NewQueue(name: CString, capacity: nat) returns (q: Queue)
      requires Valid() && 0 < capacity
      ensures fresh(q) && fresh(q.messages) && fresh(q.unacked)
      ensures q.Valid() && q.heap == heap && q.name == name && q.Abs() == QueueModel.Initial(capacity)
      ensures Valid() && Abs() == old(Abs())
    {
      q := new Queue.Init(name, capacity, heap);
    }

    /** Enters a queue that shares nothing with the others into the registry. */
    method Attach(q: Queue)
      requires Valid() && q.Valid() && q.heap == heap
      requires {this as object, heap} !! {q as object, q.messages, q.unacked}
      requires forall i :: 0 <= i < |queues| ==> Apart(queues[i], q)
      modifies `queues, `repr
      ensures Valid() && repr == old(repr) + {q, q.messages, q.unacked}
      ensures Abs() == old(Abs()).(queues := old(Abs()).queues + [R.NamedQueue(q.name, q.Abs())])
    {
      ghost var wider := repr + {q, q.messages, q.unacked};
      StatesSnoc(queues, q, repr, wider);
      queues := queues + [q];
      repr := wider;
    }

    /** `broker_create_exchange`. */
    method CreateExchange(name: CString, kind: R.ExchangeType) returns (index: Option<nat>)
      requires Valid()
      modifies `exchanges
      ensures Valid()
      ensures var r := R.CreateExchange(old(Abs()), name, kind); Abs() == r.0 && index == r.1
    {
      var i := 0;
      while i < |exchanges| && exchanges[i].name != name
        invariant i <= |exchanges|
        invariant IndexOf(exchanges, R.IsExchange(name), 0) == IndexOf(exchanges, R.IsExchange(name), i)
      {
        i := i + 1;
      }
      if i < |exchanges| {
        return Some(i);
      }
      if |exchanges| >= limits.exchanges {
        return None;
      }
      exchanges := exchanges + [R.Exchange(name, kind)];
      return Some(i);
    }

    /** `broker_bind_queue`. */
    method BindQueue(exchange: nat, queue: nat, key: Option<CString>) returns (ok: bool)
      requires Valid() && exchange < |exchanges| && queue < |queues|
      modifies `bindings
      ensures Valid()
      ensures var r := R.Bind(old(Abs()), exchange, queue, key); Abs() == r.0 && ok == r.1
    {
      if |bindings| >= limits.bindings {
        return false;
      }
      bindings := bindings + [R.Binding(exchange, queue, key)];
      return true;
    }

    /** `register_consumer`. */
    method RegisterConsumer(client: int, queueName: CString) returns (ok: bool)
      requires Valid()
      modifies `registrations
      ensures Valid()
      ensures var r := R.Register(old(Abs()), client, queueName); Abs() == r.0 && ok == r.1
    {
      if client < 0 || client >= |live| {
        return false;
      }
      if |registrations| >= limits.connections {
        return false;
      }
      registrations := registrations + [R.Registration(client, R.Stored(queueName))];
      return true;
    }

    /** `forward_message_to_consumers`: one attempt to send for every live registration of that queue name. */
    method Forward(queueName: CString, m: Address)
      requires Valid() && m < |heap.blocks|
      modifies `attempts
      ensures Valid()
      ensures var b := old(Abs());
              Abs() == b.(attempts := b.attempts + R.AttemptsFor(registrations, live, queueName, heap.blocks[m]))
    {
      ghost var b := Abs();
      for i := 0 to |registrations|
        invariant attempts == b.attempts + R.AttemptsFor(registrations[..i], live, queueName, heap.blocks[m])
      {
        assert registrations[..i + 1][..i] == registrations[..i];
        if registrations[i].queueName == queueName {
          var client := registrations[i].client;
          if live[client] {
            attempts := attempts + [R.Attempt(i, client, heap.blocks[m])];
          }
        }
      }
      assert registrations[..|registrations|] == registrations;
    }

    /** `queue_try_enqueue` on one of the queues; the others do not notice. */
    method EnqueueInto(queue: nat, a: Address) returns (ok: bool)
      requires Valid() && queue < |queues|
      modifies repr
      ensures Valid()
      ensures var b := old(Abs());
              var q := b.queues[queue];
              var o := QueueModel.TryEnqueue(q.state, a);
              ok == o.done && Abs() == b.(queues := b.queues[queue := R.NamedQueue(q.name, o.next)])
    {
      hide QueueModel.TryEnqueue;
      ok := queues[queue].TryEnqueue(a);
      forall i | 0 <= i < |queues| && i != queue
        ensures queues[i].Valid() && queues[i].Abs() == old(queues[i].Abs())
      {
        assert Apart(queues[i], queues[queue]);
      }
    }

    /** `message_clone`. */
    method CloneMessage(m: Address) returns (clone: Address)
      requires Valid() && m < |heap.blocks|
      modifies heap
      ensures Valid() && clone == |old(heap.blocks)|
      ensures Abs() == old(Abs()).(memory := old(Abs()).memory.Alloc(old(heap.blocks)[m]))
    {
      clone := heap.Clone(m);
    }

    /** `message_free`. */
    method FreeMessage(m: Address)
      requires Valid()
      modifies heap
      ensures Valid() && Abs() == old(Abs()).(memory := old(Abs()).memory.Free(m))
    {
      heap.Free(m);
    }

    /** The body of the routing loop for a binding that matches. */
    method PlaceCopy(queue: nat, m: Address) returns (ok: bool)
      requires Valid() && queue < |queues| && m < |heap.blocks|
      modifies `attempts, heap, repr
      ensures Valid()
      ensures var p := R.Place(R.Routed(old(Abs()), []), queue, m);
              Abs() == p.broker && |p.placed| == (if ok then 1 else 0)
    {
      var clone := CloneMessage(m);
      ok := EnqueueInto(queue, clone);
      if ok {
        Forward(queues[queue].name, clone);
      } else {
        FreeMessage(clone);
      }
    }

    /** The test of the routing loop, by exchange type. */
    method Accepts(kind: R.ExchangeType, key: Option<CString>, routingKey: CString) returns (yes: bool)
      ensures yes == R.Accepts(kind, key, routingKey)
    {
      match kind
      case Fanout => yes := true;
      case Direct => yes := key.Some? && key.value == routingKey;
      case Topic => yes := key.Some? && MatchTopic(key.value, routingKey);
    }

    /** The routing loop at one binding: how many copies it placed. */
    method RouteBinding(exchange: nat, m: Address, i: nat) returns (n: nat)
      requires Valid() && exchange < |exchanges| && m < |heap.blocks| && i < |bindings|
      modifies `attempts, heap, repr
      ensures Valid()
      ensures var p := R.RouteAt(old(Abs()), exchange, m, i); Abs() == p.broker && n == |p.placed|
    {
      n := 0;
      if bindings[i].exchange == exchange {
        var matches := Accepts(exchanges[exchange].kind, bindings[i].key, heap.blocks[m].routingKey);
        if matches {
          var ok := PlaceCopy(bindings[i].queue, m);
          n := if ok then 1 else 0;
        }
      }
    }

    /** The loop of `broker_route_message`. */
    method RouteToAll(exchange: nat, m: Address) returns (routed: nat)
      requires Valid() && exchange < |exchanges| && m < |heap.blocks|
      modifies `attempts, heap, repr
      ensures Valid()
      ensures var p := R.RouteTo(old(Abs()), exchange, m, |bindings|); Abs() == p.broker && routed == |p.placed|
    {
      hide R.Place, R.Applies;
      ghost var b := Abs();
      ghost var p := R.RouteTo(b, exchange, m, 0);
      routed := 0;
      for i := 0 to |bindings|
        invariant repr == old(repr) && bindings == old(bindings)
        invariant Valid() && Abs() == p.broker
        invariant p == R.RouteTo(b, exchange, m, i) && routed == |p.placed|
      {
        R.RouteToNext(b, exchange, m, i);
        var n := RouteBinding(exchange, m, i);
        routed := routed + n;
        p := R.RouteTo(b, exchange, m, i + 1);
      }
    }

    /** `broker_route_message`: the number of copies placed. */
    method RouteMessage(exchange: nat, m: Address) returns (routed: nat)
      requires Valid() && exchange < |exchanges| && m < |heap.blocks|
      modifies `attempts, heap, repr
      ensures Valid()
      ensures var p := R.Route(old(Abs()), exchange, m); Abs() == p.broker && routed == |p.placed|
    {
      routed := RouteToAll(exchange, m);
      if routed == 0 {
        FreeMessage(m);
      } else if routed == 1 {
        // kept, as the source does
      } else {
        FreeMessage(m);
      }
    }

    /** `broker_publish`. */
    method Publish(exchange: nat, m: Address) returns (ok: bool)
      requires Valid() && exchange < |exchanges| && m < |heap.blocks|
      modifies `attempts, heap, repr
      ensures Valid()
      ensures var p := R.Publish(old(Abs()), exchange, m); Abs() == p.broker && ok == (p.placed != [])
    {
      var clone := CloneMessage(m);
      var routed := RouteMessage(exchange, clone);
      if routed == 0 {
        FreeMessage(clone);
        return false;
      }
      return true;
    }

    /** `queue_process_timeouts` on one of the queues; the others do not notice. */
    method SweepOne(queue: nat, now: int, timeout: int)
      requires Valid() && queue < |queues|
      modifies heap, repr
      ensures Valid() && Abs() == R.SweepQueue(old(Abs()), queue, now, timeout)
    {
      hide QueueModel.Sweep;
      queues[queue].ProcessTimeouts(now, timeout);
      forall i | 0 <= i < |queues| && i != queue
        ensures queues[i].Valid() && queues[i].Abs() == old(queues[i].Abs())
      {
        assert Apart(queues[i], queues[queue]);
      }
    }

    /** `queue_try_dequeue` on one of the queues: a table that grew is not in `repr` yet. */
    method DequeueAt(queue: nat, now: int, reallocOk: bool) returns (delivery: Option<(Address, nat)>)
      requires Valid() && queue < |queues|
      modifies repr
      ensures var wider := repr + {queues[queue].unacked};
              && this !in wider && heap !in wider && fresh(wider - repr)
              && Within(queues, wider) && AllApart(queues, wider)
      ensures forall i :: 0 <= i < |queues| && i != queue ==> queues[i].Abs() == old(queues[i].Abs())
      ensures var s := old(queues[queue].Abs());
              var o := QueueModel.TryDequeue(s, now, reallocOk);
              && queues[queue].Abs() == o.next
              && delivery.Some? == o.done
              && (delivery.Some? ==> delivery.value == (s.ring[0], s.nextTag))
    {
      hide QueueModel.TryDequeue;
      delivery := queues[queue].TryDequeue(now, reallocOk);
      forall i | 0 <= i < |queues| && i != queue
        ensures queues[i].Valid() && queues[i].Abs() == old(queues[i].Abs())
      {
        assert Apart(queues[i], queues[queue]);
      }
    }

    /** A dequeue from one of the queues; the others do not notice. */
    method DequeueFrom(queue: nat, now: int, reallocOk: bool) returns (delivery: Option<(Address, nat)>)
      requires Valid() && queue < |queues|
      modifies `repr, repr
      ensures Valid() && fresh(repr - old(repr))
      ensures Abs() == Runs.CallQueue(old(Abs()), queue, Q.Dequeue(now, reallocOk))
      ensures var s := old(Abs()).queues[queue].state;
              delivery == if Q.Step(s, Q.Dequeue(now, reallocOk)).done then Some((s.ring[0], s.nextTag)) else None
    {
      hide QueueModel.TryDequeue, Runs.CallQueue, Q.Step;
      DequeueReleasesNothing(Abs(), queue, now, reallocOk);
      delivery := DequeueAt(queue, now, reallocOk);
      repr := repr + {queues[queue].unacked};
    }

    /** `queue_ack` on one of the queues. */
    method AckIn(queue: nat, tag: nat) returns (found: bool)
      requires Valid() && queue < |queues|
      modifies heap, repr
      ensures Valid() && Abs() == Runs.CallQueue(old(Abs()), queue, Q.Acknowledge(tag))
      ensures found == Q.Step(old(Abs()).queues[queue].state, Q.Acknowledge(tag)).done
    {
      hide QueueModel.Ack;
      found := queues[queue].Ack(tag);
      forall i | 0 <= i < |queues| && i != queue
        ensures queues[i].Valid() && queues[i].Abs() == old(queues[i].Abs())
      {
        assert Apart(queues[i], queues[queue]);
      }
    }

    /** `queue_reject` on one of the queues. */
    method RejectIn(queue: nat, tag: nat, requeue: bool) returns (found: bool)
      requires Valid() && queue < |queues|
      modifies heap, repr
      ensures Valid() && Abs() == Runs.CallQueue(old(Abs()), queue, Q.Refuse(tag, requeue))
      ensures found == Q.Step(old(Abs()).queues[queue].state, Q.Refuse(tag, requeue)).done
    {
      hide QueueModel.Reject;
      found := queues[queue].Reject(tag, requeue);
      forall i | 0 <= i < |queues| && i != queue
        ensures queues[i].Valid() && queues[i].Abs() == old(queues[i].Abs())
      {
        assert Apart(queues[i], queues[queue]);
      }
    }

    /** A client's slot goes live, or is given up. */
    method SetLive(slot: nat, isLive: bool)
      requires Valid()
      modifies `live
      ensures Valid() && Abs() == Runs.Apply(old(Abs()), Runs.SetLive(slot, isLive))
    {
      if slot < |live| {
        live := live[slot := isLive];
      }
    }

    /** The sweep of all queues. */
    method SweepAll(readings: seq<int>, timeout: int)
      requires Valid() && |queues| <= |readings|
      modifies heap, repr
      ensures Valid() && Abs() == R.SweepTo(old(Abs()), readings, timeout, |queues|)
    {
      hide QueueModel.Sweep;
      ghost var b := Abs();
      ghost var b' := R.SweepTo(b, readings, timeout, 0);
      for i := 0 to |queues|
        invariant repr == old(repr) && queues == old(queues)
        invariant Valid() && Abs() == b'
        invariant b' == R.SweepTo(b, readings, timeout, i)
      {
        R.SweepToNext(b, readings, timeout, i);
        SweepOne(i, readings[i], timeout);
        b' := R.SweepQueue(b', i, readings[i], timeout);
      }
    }

    /** One iteration of `broker_event_loop`; `readings` are the clock readings the sweeps of the queues make. */
    method EventLoopIteration(lastCheck: int, now: int, readings: seq<int>) returns (check: int)
      requires Valid() && |queues| <= |readings|
      modifies heap, repr
      ensures Valid()
      ensures var r := R.Iterate(old(Abs()), lastCheck, now, readings); Abs() == r.0 && check == r.1
    {
      if now - lastCheck >= R.CHECK_INTERVAL_SECONDS {
        SweepAll(readings, R.ACK_TIMEOUT_SECONDS);
        return now;
      }
      return lastCheck;
    }
  }
}
