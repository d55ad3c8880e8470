/** When an unacknowledged delivery is taken back: the event loop on a clock that does not go back. */
module Redelivery {
  import opened Memory
  import opened QueueModel
  import opened QueueRuns
  import opened Routing
  import opened BrokerRuns

  /** The broker with its event loop: the last check, the last iteration, and the latest clock reading of anyone. */
  datatype Loop = Loop(broker: Broker, lastCheck: int, lastIteration: int, clock: int)

  /** An iteration reads the clock once itself and once for every queue it sweeps; `end` is when it is over. */
  datatype Moment =
    | Iteration(now: int, readings: seq<int>, end: int)
    | Activity(at: int, event: Event)

  predicate Happens(l: Loop, m: Moment) {
    l.broker.Valid() && (m.Iteration? ==> |l.broker.queues| <= |m.readings|)
  }

  function Pass(l: Loop, m: Moment): (l': Loop)
    requires Happens(l, m)
    ensures l'.broker.Valid()
  {
    match m
    case Iteration(now, readings, end) =>
      IterateValid(l.broker, l.lastCheck, now, readings);
      var (b, check) := Iterate(l.broker, l.lastCheck, now, readings);
      Loop(b, check, now, end)
    case Activity(at, event) => l.(broker := Apply(l.broker, event), clock := at)
  }

  /** The clock does not go back, deliveries carry its reading, and the loop iterates at least every `gap` seconds. */
  predicate Timely(gap: nat, l: Loop, m: Moment) {
    Happens(l, m) &&
    match m
    case Iteration(now, readings, end) =>
      && l.clock <= now <= l.lastIteration + gap
      && (forall i :: 0 <= i < |readings| ==> now <= readings[i] <= end)
      && now <= end <= now + gap
    case Activity(at, event) =>
      && l.clock <= at <= l.lastIteration + gap
      && (event.Call? && event.op.Dequeue? ==> event.op.now == at)
  }

  // ---------------------------------------------------------------- the sweep of all queues

  lemma {:induction false} SweepToQueue(b: Broker, readings: seq<int>, timeout: int, n: nat, q: nat)
    requires n <= |b.queues| <= |readings| && q < |b.queues|
    ensures SweepTo(b, readings, timeout, n).queues[q] ==
            if q < n then NamedQueue(b.queues[q].name, Sweep(b.queues[q].state, readings[q], timeout).next)
            else b.queues[q]
  {
    hide Sweep;
    if n > 0 {
      SweepToQueue(b, readings, timeout, n - 1, q);
      SweepToNext(b, readings, timeout, n - 1);
      SweepQueueAt(SweepTo(b, readings, timeout, n - 1), n - 1, readings[n - 1], timeout, q);
    }
  }

  lemma SweepQueueAt(b: Broker, i: nat, now: int, timeout: int, q: nat)
    requires i < |b.queues| && q < |b.queues|
    ensures SweepQueue(b, i, now, timeout).queues[q] ==
            if q == i then NamedQueue(b.queues[q].name, Sweep(b.queues[q].state, now, timeout).next) else b.queues[q]
  {
  }

  lemma {:induction false} SweepToSame(b: Broker, readings: seq<int>, timeout: int, n: nat)
    requires n <= |b.queues| <= |readings|
    ensures SameSetup(b, SweepTo(b, readings, timeout, n))
  {
    hide SweepQueue;
    if n > 0 {
      var before := SweepTo(b, readings, timeout, n - 1);
      SweepToSame(b, readings, timeout, n - 1);
      SweepToNext(b, readings, timeout, n - 1);
      SweepQueueSame(before, n - 1, readings[n - 1], timeout);
      hide SweepTo;
      SameSetupTrans(b, before, SweepTo(b, readings, timeout, n));
    }
  }

  lemma SameSetupTrans(a: Broker, b: Broker, c: Broker)
    requires SameSetup(a, b) && SameSetup(b, c)
    ensures SameSetup(a, c)
  {
  }

  lemma SweepQueueSame(b: Broker, i: nat, now: int, timeout: int)
    requires i < |b.queues|
    ensures SameSetup(b, SweepQueue(b, i, now, timeout))
  {
    hide Sweep;
  }

  lemma IterateValid(b: Broker, lastCheck: int, now: int, readings: seq<int>)
    requires b.Valid() && |b.queues| <= |readings|
    ensures Iterate(b, lastCheck, now, readings).0.Valid()
  {
    var b' := SweepTo(b, readings, ACK_TIMEOUT_SECONDS, |b.queues|);
    SweepToSame(b, readings, ACK_TIMEOUT_SECONDS, |b.queues|);
    forall q | 0 <= q < |b.queues|
      ensures b'.queues[q].state.Valid()
    {
      SweepToQueue(b, readings, ACK_TIMEOUT_SECONDS, |b.queues|, q);
      StepValid(b.queues[q].state, Timeouts(readings[q], ACK_TIMEOUT_SECONDS));
    }
  }

  /** An entry in the table of queue `q` that is still DELIVERED. */
  predicate IsOut(b: Broker, q: nat, e: Entry) {
    q < |b.queues| && e in b.queues[q].state.table && e.status == QueueModel.Delivered
  }

  /** A sweep leaves a delivery out exactly as long as it is not older than the timeout. */
  lemma SweepTakesOverdue(s: State, now: int, timeout: int, e: Entry)
    requires 0 < timeout && e.status == QueueModel.Delivered
    ensures e in Sweep(s, now, timeout).next.table <==> e in s.table && now - e.time <= timeout
  {
    KeptMembers(s.table, now, timeout, e);
    var marked := MarkExpired(s.table, now, timeout);
    if e in s.table && now - e.time <= timeout {
      var i :| 0 <= i < |s.table| && s.table[i] == e;
      assert marked[i] == e;
    }
    if e in marked {
      var i :| 0 <= i < |marked| && marked[i] == e;
      assert s.table[i] == e;
    }
  }

  /** A sweep changes nothing exactly when its timeout is not positive or no delivery is older. */
  lemma SweepIdleIff(s: State, now: int, timeout: int)
    requires s.Valid()
    ensures Sweep(s, now, timeout).next == s <==>
            timeout <= 0 || forall e :: e in s.table && e.status == QueueModel.Delivered ==> now - e.time <= timeout
  {
    OverdueEmpty(s.table, now, timeout);
    if 0 < timeout && Overdue(s.table, now, timeout) != [] {
      var e :| e in s.table && IsExpired(e, now, timeout);
      SweepTakesOverdue(s, now, timeout, e);
    } else if 0 < timeout {
      assert forall i :: 0 <= i < |s.table| ==> s.table[i] in s.table;
      assert MarkExpired(s.table, now, timeout) == s.table;
    }
  }

  /** A check takes back exactly the deliveries that are older than 30 seconds by the clock of their queue's sweep. */
  lemma CheckTakesOverdue(b: Broker, lastCheck: int, now: int, readings: seq<int>, q: nat, e: Entry)
    requires |b.queues| <= |readings| && q < |b.queues| && e.status == QueueModel.Delivered
    ensures var b' := Iterate(b, lastCheck, now, readings).0;
            IsOut(b', q, e) <==>
              && IsOut(b, q, e)
              && (now - lastCheck >= CHECK_INTERVAL_SECONDS ==> readings[q] - e.time <= ACK_TIMEOUT_SECONDS)
  {
    SweepToQueue(b, readings, ACK_TIMEOUT_SECONDS, |b.queues|, q);
    SweepTakesOverdue(b.queues[q].state, readings[q], ACK_TIMEOUT_SECONDS, e);
  }

  // ---------------------------------------------------------------- other activity

  /** A call leaves no delivery out that was not, except the one it makes. */
  lemma StepOut(s: State, op: Op, e: Entry)
    requires e in Next(s, op).table && e.status == QueueModel.Delivered
    ensures e in s.table || (op.Dequeue? && e.time == op.now)
  {
    match op
    case Enqueue(_) =>
    case Dequeue(_, _) =>
    case Acknowledge(_) =>
      if Target(s, op) < |s.table| {
        PendingMembers(Mark(s.table, Target(s, op)), e);
      }
    case Refuse(_, _) =>
      if Target(s, op) < |s.table| {
        PendingMembers(Mark(s.table, Target(s, op)), e);
      }
    case Timeouts(now, timeout) =>
      if timeout > 0 {
        SweepTakesOverdue(s, now, timeout, e);
      }
  }

  lemma ApplyOut(b: Broker, event: Event, q: nat, e: Entry)
    requires b.Valid() && IsOut(Apply(b, event), q, e)
    ensures IsOut(b, q, e) || (event.Call? && event.op.Dequeue? && e.time == event.op.now)
  {
    if event.Incoming? && event.exchange < |b.exchanges| {
      IncomingTables(b, event.exchange, event.message, q);
    } else if event.Call? && event.queue == q < |b.queues| {
      StepOut(b.queues[q].state, event.op, e);
    }
  }

  // ---------------------------------------------------------------- the bound

  /**
   * The loop is never more than 4 seconds past its last check, and the last
   * check left no delivery older than 30 seconds.
   */
  ghost predicate OnTime(l: Loop) {
    && l.lastCheck <= l.lastIteration <= l.lastCheck + CHECK_INTERVAL_SECONDS - 1
    && l.lastIteration <= l.clock
    && forall q: nat, e :: IsOut(l.broker, q, e) ==> l.lastCheck - e.time <= ACK_TIMEOUT_SECONDS
  }

  lemma PassOnTime(gap: nat, l: Loop, m: Moment)
    requires Timely(gap, l, m) && OnTime(l)
    ensures OnTime(Pass(l, m)) && Pass(l, m).clock <= Pass(l, m).lastIteration + gap
  {
    var l' := Pass(l, m);
    forall q: nat, e | IsOut(l'.broker, q, e)
      ensures l'.lastCheck - e.time <= ACK_TIMEOUT_SECONDS
    {
      match m
      case Iteration(now, readings, end) =>
        SweepToSame(l.broker, readings, ACK_TIMEOUT_SECONDS, |l.broker.queues|);
        CheckTakesOverdue(l.broker, l.lastCheck, now, readings, q, e);
      case Activity(at, event) => ApplyOut(l.broker, event, q, e);
    }
  }

  /** A timed run: every moment is timely in the state it meets. */
  predicate IsTimed(gap: nat, l: Loop, ms: seq<Moment>)
    requires l.broker.Valid()
    decreases |ms|
  {
    ms != [] ==> Timely(gap, l, ms[0]) && IsTimed(gap, Pass(l, ms[0]), ms[1..])
  }

  function PassAll(l: Loop, ms: seq<Moment>, gap: nat): (l': Loop)
    requires l.broker.Valid() && IsTimed(gap, l, ms)
    ensures l'.broker.Valid()
    decreases |ms|
  {
    if ms == [] then l else PassAll(Pass(l, ms[0]), ms[1..], gap)
  }

  /**
   * In every state of every timed run, no delivery has been out for more than
   * 34 + gap seconds, and the last check is at most 4 seconds behind the last
   * iteration and left no delivery older than 30 seconds.
   */
  lemma {:induction false} NoDeliveryOlder(gap: nat, l: Loop, ms: seq<Moment>)
    requires l.broker.Valid() && IsTimed(gap, l, ms) && OnTime(l) && l.clock <= l.lastIteration + gap
    ensures var l' := PassAll(l, ms, gap);
            && OnTime(l') && l'.clock <= l'.lastIteration + gap
            && l'.lastIteration - l'.lastCheck <= 4
            && forall q: nat, e :: IsOut(l'.broker, q, e) ==> l'.clock - e.time <= 34 + gap
    decreases |ms|
  {
    if ms != [] {
      PassOnTime(gap, l, ms[0]);
      NoDeliveryOlder(gap, Pass(l, ms[0]), ms[1..]);
    }
  }

  /**
   * One check, for a delivery made at `d` while the last check was not later
   * than d + 30: if the check comes at d + 31 or later it comes by
   * d + 34 + gap, and afterwards no delivery made by `d` is out. A check never
   * takes a delivery whose age is 30 seconds or less.
   */
  lemma CheckInTime(gap: nat, l: Loop, m: Moment, d: int)
    requires Timely(gap, l, m) && OnTime(l) && m.Iteration?
    requires m.now - l.lastCheck >= CHECK_INTERVAL_SECONDS && l.lastCheck <= d + 30
    ensures m.now <= d + 34 + gap
    ensures m.now >= d + 31 ==> forall q: nat, e :: IsOut(Pass(l, m).broker, q, e) ==> e.time > d
    ensures forall q: nat, e :: IsOut(l.broker, q, e) && m.readings[q] - e.time <= 30 ==> IsOut(Pass(l, m).broker, q, e)
  {
    PassOnTime(gap, l, m);
    forall q: nat, e | IsOut(l.broker, q, e) && m.readings[q] - e.time <= 30
      ensures IsOut(Pass(l, m).broker, q, e)
    {
      CheckTakesOverdue(l.broker, l.lastCheck, m.now, m.readings, q, e);
    }
  }

  /** An iteration that is over at once. */
  function Tick(now: int, queues: nat): Moment {
    Iteration(now, seq(queues, _ => now), now)
  }

  /** A tick `t` seconds after a delivery that was made just after a check; up to 34 it stays out. */
  ghost predicate Waiting(l: Loop, q: nat, e: Entry, t: nat) {
    && l.broker.Valid()
    && IsOut(l.broker, q, e)
    && l.lastIteration == l.clock == e.time + t
    && l.lastCheck == e.time + t - t % CHECK_INTERVAL_SECONDS
  }

  lemma TickWaits(gap: nat, l: Loop, q: nat, e: Entry, t: nat)
    requires gap > 0 && Waiting(l, q, e, t) && t < 34
    ensures var m := Tick(e.time + t + 1, |l.broker.queues|);
            Timely(gap, l, m) && Waiting(Pass(l, m), q, e, t + 1) && |Pass(l, m).broker.queues| == |l.broker.queues|
  {
    hide SweepTo, Sweep, Apply;
    var now := e.time + t + 1;
    var readings := seq(|l.broker.queues|, _ => now);
    assert t % CHECK_INTERVAL_SECONDS == CHECK_INTERVAL_SECONDS - 1 ==> t + 1 <= 30;
    CheckTakesOverdue(l.broker, l.lastCheck, now, readings, q, e);
  }

  /**
   * The bound cannot be improved: a delivery made right after a check, with an
   * iteration every second, is still out after 34 + gap seconds.
   */
  lemma {:induction false} BoundIsMet(gap: nat, l: Loop, q: nat, e: Entry, t: nat) returns (ms: seq<Moment>)
    requires gap > 0 && Waiting(l, q, e, t) && t <= 34
    ensures IsTimed(gap, l, ms)
    ensures var l' := PassAll(l, ms, gap); IsOut(l'.broker, q, e) && l'.clock - e.time == 34 + gap
    decreases 34 - t
  {
    if t == 34 {
      ms := [Activity(e.time + 34 + gap, Subscribe(-1, []))];
      assert Pass(l, ms[0]) == l.(clock := e.time + 34 + gap);
      assert IsTimed(gap, Pass(l, ms[0]), ms[1..]);
    } else {
      var m := Tick(e.time + t + 1, |l.broker.queues|);
      TickWaits(gap, l, q, e, t);
      var rest := BoundIsMet(gap, Pass(l, m), q, e, t + 1);
      ms := [m] + rest;
      assert ms[1..] == rest;
    }
  }

  // ---------------------------------------------------------------- from the start of the broker

  /** The loop of a new broker that starts at `at`. */
  function Start(limits: Limits, at: int): Loop {
    Loop(Empty(limits), at, at, at)
  }

  lemma StartOnTime(limits: Limits, at: int)
    ensures OnTime(Start(limits, at))
  {
  }

  /** From the start of a broker, whatever happens, no delivery is ever out for more than 34 + gap seconds. */
  lemma NoDeliveryOlderFromStart(gap: nat, limits: Limits, at: int, ms: seq<Moment>)
    requires IsTimed(gap, Start(limits, at), ms)
    ensures var l := PassAll(Start(limits, at), ms, gap);
            forall q: nat, e :: IsOut(l.broker, q, e) ==> l.clock - e.time <= 34 + gap
  {
    NoDeliveryOlder(gap, Start(limits, at), ms);
  }

  /** The iteration sweeps the queues. */
  predicate Checks(l: Loop, m: Moment) {
    m.Iteration? && m.now - l.lastCheck >= CHECK_INTERVAL_SECONDS
  }

  /** Every check of the run comes before `t`. */
  predicate ChecksBefore(gap: nat, l: Loop, ms: seq<Moment>, t: int)
    requires l.broker.Valid() && IsTimed(gap, l, ms)
    decreases |ms|
  {
    ms != [] ==> (Checks(l, ms[0]) ==> ms[0].now < t) && ChecksBefore(gap, Pass(l, ms[0]), ms[1..], t)
  }

  lemma {:induction false} LastCheckBefore(gap: nat, l: Loop, ms: seq<Moment>, t: int)
    requires l.broker.Valid() && IsTimed(gap, l, ms) && ChecksBefore(gap, l, ms, t) && l.lastCheck < t
    ensures PassAll(l, ms, gap).lastCheck < t
    decreases |ms|
  {
    if ms != [] {
      LastCheckBefore(gap, Pass(l, ms[0]), ms[1..], t);
    }
  }

  /**
   * In every timed run from the start of a broker, the first check at or after
   * d + 31 comes by d + 34 + gap; afterwards no delivery made by `d` is out,
   * and every delivery of 30 seconds or less still is.
   */
  lemma FirstCheck(gap: nat, limits: Limits, at: int, ms: seq<Moment>, m: Moment, d: int)
    requires at <= d + 30 && IsTimed(gap, Start(limits, at), ms) && ChecksBefore(gap, Start(limits, at), ms, d + 31)
    requires var l := PassAll(Start(limits, at), ms, gap); Timely(gap, l, m) && Checks(l, m) && m.now >= d + 31
    ensures m.now <= d + 34 + gap
    ensures var l := PassAll(Start(limits, at), ms, gap);
            && (forall q: nat, e :: IsOut(Pass(l, m).broker, q, e) ==> e.time > d)
            && (forall q: nat, e :: IsOut(l.broker, q, e) && m.readings[q] - e.time <= 30 ==>
                  IsOut(Pass(l, m).broker, q, e))
  {
    hide Pass, IsTimed, ChecksBefore, PassAll, OnTime;
    StartOnTime(limits, at);
    NoDeliveryOlder(gap, Start(limits, at), ms);
    LastCheckBefore(gap, Start(limits, at), ms, d + 31);
    CheckInTime(gap, PassAll(Start(limits, at), ms, gap), m, d);
  }

  /** And there is one: a run that is past d + 34 + gap has checked at or after d + 31. */
  lemma CheckHasCome(gap: nat, limits: Limits, at: int, ms: seq<Moment>, d: int)
    requires at <= d + 30 && IsTimed(gap, Start(limits, at), ms)
    requires PassAll(Start(limits, at), ms, gap).clock > d + 34 + gap
    ensures !ChecksBefore(gap, Start(limits, at), ms, d + 31)
  {
    hide IsTimed, ChecksBefore, PassAll, OnTime;
    StartOnTime(limits, at);
    NoDeliveryOlder(gap, Start(limits, at), ms);
    if ChecksBefore(gap, Start(limits, at), ms, d + 31) {
      LastCheckBefore(gap, Start(limits, at), ms, d + 31);
    }
  }

  lemma {:induction false} PassAllConcat(gap: nat, l: Loop, a: seq<Moment>, b: seq<Moment>)
    requires l.broker.Valid() && IsTimed(gap, l, a) && IsTimed(gap, PassAll(l, a, gap), b)
    ensures IsTimed(gap, l, a + b) && PassAll(l, a + b, gap) == PassAll(PassAll(l, a, gap), b, gap)
    decreases |a|
  {
    hide Pass;
    if a == [] {
      assert a + b == b;
    } else {
      PassAllConcat(gap, Pass(l, a[0]), a[1..], b);
      assert (a + b)[1..] == a[1..] + b;
    }
  }

  /** Some events, all in one second. */
  function At(at: int, events: seq<Event>): (ms: seq<Moment>)
    ensures |ms| == |events|
  {
    seq(|events|, i requires 0 <= i < |events| => Activity(at, events[i]))
  }

  lemma {:induction false} AllAtOnce(gap: nat, b: Broker, at: int, events: seq<Event>)
    requires b.Valid()
    requires forall i :: 0 <= i < |events| && events[i].Call? && events[i].op.Dequeue? ==> events[i].op.now == at
    ensures IsTimed(gap, Loop(b, at, at, at), At(at, events))
    ensures PassAll(Loop(b, at, at, at), At(at, events), gap) == Loop(Run(b, events), at, at, at)
  {
    hide Apply;
    if events != [] {
      var n := |events| - 1;
      var last := Activity(at, events[n]);
      AllAtOnce(gap, b, at, events[..n]);
      OneMoment(gap, Loop(Run(b, events[..n]), at, at, at), last);
      PassAllConcat(gap, Loop(b, at, at, at), At(at, events[..n]), [last]);
      assert At(at, events) == At(at, events[..n]) + [last];
      hide IsTimed, PassAll;
    }
  }

  lemma OneMoment(gap: nat, l: Loop, m: Moment)
    requires l.broker.Valid() && Timely(gap, l, m)
    ensures IsTimed(gap, l, [m]) && PassAll(l, [m], gap) == Pass(l, m)
  {
    assert [m][1..] == [];
    assert IsTimed(gap, Pass(l, m), []);
  }

  /** A publish and the delivery of its message, made in the second the broker starts. */
  function DeliverOne(name: CString, message: Message, at: int): seq<Event> {
    OneQueueSetup(name, 1) + [Incoming(0, message)] + [Call(0, Dequeue(at, true))]
  }

  lemma DeliverOneRun(limits: Limits, name: CString, message: Message, at: int)
    requires limits.exchanges > 0 && limits.queues > 0 && limits.bindings > 0
    ensures Run(Empty(limits), DeliverOne(name, message, at)).queues ==
            [NamedQueue(name, State(1, [], [Entry(2, 1, at, QueueModel.Delivered)], 100, 2))]
  {
    hide Run, OneQueueSetup, Apply;
    var setup := OneQueueSetup(name, 1);
    OneQueueReached(limits, name, 1);
    RunSnoc(Empty(limits), setup, Incoming(0, message));
    RunSnoc(Empty(limits), setup + [Incoming(0, message)], Call(0, Dequeue(at, true)));
    OneQueuePublish(limits, name, 1, message);
    DeliverTwo(Apply(OneQueue(limits, name, 1), Incoming(0, message)), name, at);
  }

  lemma DeliverTwo(b: Broker, name: CString, at: int)
    requires b.Valid() && b.queues == [NamedQueue(name, Append(Initial(1), 2))]
    ensures Apply(b, Call(0, Dequeue(at, true))).queues ==
            [NamedQueue(name, State(1, [], [Entry(2, 1, at, QueueModel.Delivered)], 100, 2))]
  {
    assert [] + [2] == [2] && [2][1..] == [];
    assert Step(Append(Initial(1), 2), Dequeue(at, true)).next ==
           State(1, [], [Entry(2, 1, at, QueueModel.Delivered)], 100, 2);
  }

  /**
   * Such a run exists from the start of the broker, so the bound is the exact
   * one: for every gap of at least a second some run comes to 34 + gap.
   */
  lemma BoundIsReached(gap: nat, limits: Limits, message: Message, at: int) returns (ms: seq<Moment>)
    requires gap > 0 && limits.exchanges > 0 && limits.queues > 0 && limits.bindings > 0
    ensures IsTimed(gap, Start(limits, at), ms)
    ensures var l, e := PassAll(Start(limits, at), ms, gap), Entry(2, 1, at, QueueModel.Delivered);
            IsOut(l.broker, 0, e) && l.clock - e.time == 34 + gap
  {
    hide Run, Pass, PassAll, IsTimed, DeliverOne;
    var events, e := DeliverOne([], message, at), Entry(2, 1, at, QueueModel.Delivered);
    var l := Loop(Run(Empty(limits), events), at, at, at);
    DeliverOneRun(limits, [], message, at);
    DeliversOnlyAt([], message, at);
    AllAtOnce(gap, Empty(limits), at, events);
    assert e in [e];
    var rest := BoundIsMet(gap, l, 0, e, 0);
    PassAllConcat(gap, Start(limits, at), At(at, events), rest);
    ms := At(at, events) + rest;
  }

  lemma DeliversOnlyAt(name: CString, message: Message, at: int)
    ensures var events := DeliverOne(name, message, at);
            forall i :: 0 <= i < |events| && events[i].Call? && events[i].op.Dequeue? ==> events[i].op.now == at
  {
  }
}
