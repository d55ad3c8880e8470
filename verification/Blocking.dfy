/**
 * The blocking protocol of `queue_enqueue` and `queue_dequeue`: threads that
 * wait on `not_full` or `not_empty`, threads that were woken and have yet to
 * take the mutex, and one queue. Every section under the mutex is one step.
 */
module Blocking {
  import opened Sequences
  import opened Memory
  import opened QueueModel
  import opened QueueRuns
  import opened QueueOrder

  /** Threads blocked on one condition variable, and those a signal took out of it. */
  datatype Threads<T> = Threads(waiting: set<T>, woken: set<T>)

  /** A blocked `queue_enqueue` holds the message it was called with. */
  datatype Producer = Producer(thread: nat, message: Address)

  type Consumer = nat

  datatype Monitor = Monitor(
    queue: State,
    producers: Threads<Producer>,
    consumers: Threads<Consumer>)
  {
    ghost predicate Valid() {
      && queue.Valid()
      && producers.waiting !! producers.woken
      && consumers.waiting !! consumers.woken
    }
  }

  /** Whether a requeue signals `not_empty`. The source does not; the repaired policy does, once a message. */
  datatype Policy = AsWritten | SignallingRequeue

  datatype Event =
    | EnqueueCall(producer: Producer)
    | EnqueueResume(producer: Producer)
    | DequeueCall(consumer: Consumer, now: int, reallocOk: bool)
    | DequeueResume(consumer: Consumer, now: int, reallocOk: bool)
    | Direct(op: Op)  // the calls that never block
    | SpuriousProducer(producer: Producer)
    | SpuriousConsumer(consumer: Consumer)

  /** `n` signals wake at least `n` waiting threads, or all of them; no signal wakes none. */
  ghost predicate Signal<T(!new)>(n: nat, before: Threads<T>, after: Threads<T>) {
    && after.waiting <= before.waiting
    && after.woken == before.woken + (before.waiting - after.waiting)
    && |before.waiting - after.waiting| >= Min(n, |before.waiting|)
    && (n == 0 ==> after == before)
  }

  /** What the queue does in one section; threads that find no room or no message leave it alone. */
  function QueueOp(q: State, e: Event): Option<Op> {
    match e
    case EnqueueCall(p) => if q.Full() then None else Some(Enqueue(p.message))
    case EnqueueResume(p) => if q.Full() then None else Some(Enqueue(p.message))
    case DequeueCall(_, now, ok) => if q.ring == [] then None else Some(Dequeue(now, ok))
    case DequeueResume(_, now, ok) => if q.ring == [] then None else Some(Dequeue(now, ok))
    case Direct(op) => Some(op)
    case SpuriousProducer(_) => None
    case SpuriousConsumer(_) => None
  }

  function QueueAfter(q: State, e: Event): State {
    match QueueOp(q, e)
    case None => q
    case Some(op) => Next(q, op)
  }

  /** A successful enqueue signals `not_empty` once, a requeue only under the repaired policy. */
  function NotEmptySignals(policy: Policy, q: State, e: Event): nat {
    match QueueOp(q, e)
    case None => 0
    case Some(op) =>
      if op.Enqueue? then (if Step(q, op).done then 1 else 0)
      else if policy.SignallingRequeue? then Requeues(q, op)
      else 0
  }

  /** How many messages an operation puts back at the head: none but those it finds and has room for. */
  function Requeues(q: State, op: Op): nat {
    match op
    case Refuse(tag, requeue) => if requeue && Find(q.table, tag) < |q.table| && !q.Full() then 1 else 0
    case Timeouts(now, timeout) =>
      if timeout > 0 && |q.ring| < q.capacity then Min(|Overdue(q.table, now, timeout)|, q.capacity - |q.ring|) else 0
    case _ => 0
  }

  /** A successful dequeue signals `not_full`. */
  function NotFullSignals(q: State, e: Event): nat {
    match QueueOp(q, e)
    case None => 0
    case Some(op) => if op.Dequeue? && Step(q, op).done then 1 else 0
  }

  /** The event can happen: callers are not blocked already, resuming threads were woken. */
  predicate Enabled(m: Monitor, e: Event) {
    match e
    case EnqueueCall(p) => p !in m.producers.waiting && p !in m.producers.woken
    case EnqueueResume(p) => p in m.producers.woken
    case DequeueCall(c, _, _) => c !in m.consumers.waiting && c !in m.consumers.woken
    case DequeueResume(c, _, _) => c in m.consumers.woken
    case Direct(_) => true
    case SpuriousProducer(p) => p in m.producers.waiting
    case SpuriousConsumer(c) => c in m.consumers.waiting
  }

  function Blocked<T>(t: Threads<T>, thread: T): Threads<T> {
    Threads(t.waiting + {thread}, t.woken - {thread})
  }

  function Woken<T>(t: Threads<T>, thread: T): Threads<T> {
    Threads(t.waiting - {thread}, t.woken + {thread})
  }

  function Gone<T>(t: Threads<T>, thread: T): Threads<T> {
    t.(woken := t.woken - {thread})
  }

  /** The producers when the section of `e` comes to its signals. */
  function ProducersOf(m: Monitor, e: Event): Threads<Producer> {
    match e
    case EnqueueCall(p) => if m.queue.Full() then Blocked(m.producers, p) else m.producers
    case EnqueueResume(p) => if m.queue.Full() then Blocked(m.producers, p) else Gone(m.producers, p)
    case SpuriousProducer(p) => Woken(m.producers, p)
    case _ => m.producers
  }

  function ConsumersOf(m: Monitor, e: Event): Threads<Consumer> {
    match e
    case DequeueCall(c, _, _) => if m.queue.ring == [] then Blocked(m.consumers, c) else m.consumers
    case DequeueResume(c, _, _) => if m.queue.ring == [] then Blocked(m.consumers, c) else Gone(m.consumers, c)
    case SpuriousConsumer(c) => Woken(m.consumers, c)
    case _ => m.consumers
  }

  /** One section under the mutex; which waiting threads a signal wakes is open. */
  ghost predicate Moves(policy: Policy, m: Monitor, e: Event, m': Monitor) {
    && Enabled(m, e)
    && m'.queue == QueueAfter(m.queue, e)
    && Signal(NotFullSignals(m.queue, e), ProducersOf(m, e), m'.producers)
    && Signal(NotEmptySignals(policy, m.queue, e), ConsumersOf(m, e), m'.consumers)
  }

  /** A run: one more state than events, each step a section. */
  ghost predicate IsRun(policy: Policy, states: seq<Monitor>, events: seq<Event>) {
    && |states| == |events| + 1
    && states[0].Valid()
    && forall i :: 0 <= i < |events| ==> Moves(policy, states[i], events[i], states[i + 1])
  }

  lemma SignalKeeps<T(!new)>(n: nat, before: Threads<T>, after: Threads<T>)
    requires Signal(n, before, after) && before.waiting !! before.woken
    ensures after.waiting !! after.woken
    ensures after.waiting != {} ==> before.waiting != {} && |after.woken| >= |before.woken| + n
  {
    if after.waiting != {} {
      var woken := before.waiting - after.waiting;
      assert before.waiting == after.waiting + woken;
      assert |before.waiting| > |woken|;
      assert |before.woken + woken| == |before.woken| + |woken|;
    }
  }

  lemma QueueAfterValid(q: State, e: Event)
    requires q.Valid()
    ensures QueueAfter(q, e).Valid() && QueueAfter(q, e).capacity == q.capacity
  {
    match QueueOp(q, e)
    case None =>
    case Some(op) => StepValid(q, op);
  }

  lemma MovesValid(policy: Policy, m: Monitor, e: Event, m': Monitor)
    requires m.Valid() && Moves(policy, m, e, m')
    ensures m'.Valid()
  {
    QueueAfterValid(m.queue, e);
    SignalKeeps(NotFullSignals(m.queue, e), ProducersOf(m, e), m'.producers);
    SignalKeeps(NotEmptySignals(policy, m.queue, e), ConsumersOf(m, e), m'.consumers);
  }

  // ---------------------------------------------------------------- no lost wake-up

  /** While a producer waits unsignalled, every free slot has a woken producer on its way to it. */
  ghost predicate ProducersServed(m: Monitor) {
    m.producers.waiting != {} ==> m.queue.capacity - |m.queue.ring| <= |m.producers.woken|
  }

  /** While a consumer waits unsignalled, every message has a woken consumer on its way to it. */
  ghost predicate ConsumersServed(m: Monitor) {
    m.consumers.waiting != {} ==> |m.queue.ring| <= |m.consumers.woken|
  }

  /** How an operation changes the number of messages. */
  lemma RingChange(q: State, op: Op)
    requires q.Valid()
    ensures var size := |Next(q, op).ring|;
            match op
            case Enqueue(_) => size == if q.Full() then |q.ring| else |q.ring| + 1
            case Dequeue(_, ok) => size == if q.ring != [] && CanTrack(q, ok) then |q.ring| - 1 else |q.ring|
            case _ => |q.ring| <= size == |q.ring| + Requeues(q, op)
  {
  }

  lemma MoveServesProducers(policy: Policy, m: Monitor, e: Event, m': Monitor)
    requires m.Valid() && Moves(policy, m, e, m') && ProducersServed(m)
    ensures ProducersServed(m')
  {
    var n, before := NotFullSignals(m.queue, e), ProducersOf(m, e);
    QueueAfterValid(m.queue, e);
    SignalKeeps(n, before, m'.producers);
    match QueueOp(m.queue, e)
    case None =>
    case Some(op) => RingChange(m.queue, op);
  }

  lemma {:induction false} RunValid(policy: Policy, states: seq<Monitor>, events: seq<Event>, n: nat)
    requires IsRun(policy, states, events) && n <= |events|
    ensures states[n].Valid()
  {
    if n > 0 {
      RunValid(policy, states, events, n - 1);
      MovesValid(policy, states[n - 1], events[n - 1], states[n]);
    }
  }

  /** In every state of every run, whatever it does: no producer waits beside a free slot that nobody was woken for. */
  lemma {:induction false} NoLostProducer(policy: Policy, states: seq<Monitor>, events: seq<Event>, n: nat)
    requires IsRun(policy, states, events) && ProducersServed(states[0]) && n <= |events|
    ensures states[n].Valid() && ProducersServed(states[n])
  {
    RunValid(policy, states, events, n);
    if n > 0 {
      NoLostProducer(policy, states, events, n - 1);
      MoveServesProducers(policy, states[n - 1], events[n - 1], states[n]);
    }
  }

  /** Messages that appear in the ring without a signal. */
  function Unsignalled(policy: Policy, q: State, e: Event): nat {
    match QueueOp(q, e)
    case None => 0
    case Some(op) => if policy.AsWritten? then Requeues(q, op) else 0
  }

  /**
   * A woken consumer finds a message but cannot track it: it leaves without the
   * message and without passing on its wake-up.
   */
  predicate GivesUp(q: State, e: Event) {
    e.DequeueResume? && q.ring != [] && !CanTrack(q, e.reallocOk)
  }

  /** When nothing is unsignalled and nobody gives up, messages and wake-ups stay in step. */
  lemma SignalledSection(policy: Policy, m: Monitor, e: Event)
    requires m.Valid() && Enabled(m, e) && ConsumersServed(m)
    requires Unsignalled(policy, m.queue, e) == 0 && !GivesUp(m.queue, e)
    ensures var before := ConsumersOf(m, e);
            before.waiting != {} ==>
              |QueueAfter(m.queue, e).ring| <= |before.woken| + NotEmptySignals(policy, m.queue, e)
  {
    match QueueOp(m.queue, e)
    case None =>
    case Some(op) => RingChange(m.queue, op);
  }

  lemma UnsignalledSection(policy: Policy, m: Monitor, e: Event)
    requires m.Valid() && Unsignalled(policy, m.queue, e) > 0
    ensures NotEmptySignals(policy, m.queue, e) == 0 && ConsumersOf(m, e) == m.consumers && !GivesUp(m.queue, e)
    ensures |QueueAfter(m.queue, e).ring| == |m.queue.ring| + Unsignalled(policy, m.queue, e)
  {
    RingChange(m.queue, QueueOp(m.queue, e).value);
  }

  lemma GivingUpSection(policy: Policy, m: Monitor, e: Event)
    requires m.Valid() && Enabled(m, e) && GivesUp(m.queue, e)
    ensures NotEmptySignals(policy, m.queue, e) == 0 && QueueAfter(m.queue, e) == m.queue
    ensures var before := ConsumersOf(m, e);
            before.waiting == m.consumers.waiting && |before.woken| == |m.consumers.woken| - 1
  {
  }

  /**
   * A requeue without a signal, or a woken consumer that gives up, leaves
   * waiting consumers and fewer woken ones than messages.
   */
  predicate StrandsConsumer(policy: Policy, m: Monitor, e: Event) {
    && m.consumers.waiting != {}
    && (var back := Unsignalled(policy, m.queue, e);
        (back > 0 && |m.queue.ring| + back > |m.consumers.woken|)
        || (GivesUp(m.queue, e) && |m.queue.ring| >= |m.consumers.woken|))
  }

  /** One step, exactly: consumers stay served unless the step strands one. */
  lemma MoveServesConsumers(policy: Policy, m: Monitor, e: Event, m': Monitor)
    requires m.Valid() && Moves(policy, m, e, m') && ConsumersServed(m)
    ensures ConsumersServed(m') <==> !StrandsConsumer(policy, m, e)
  {
    SignalKeeps(NotEmptySignals(policy, m.queue, e), ConsumersOf(m, e), m'.consumers);
    if Unsignalled(policy, m.queue, e) > 0 {
      UnsignalledSection(policy, m, e);
    } else if GivesUp(m.queue, e) {
      GivingUpSection(policy, m, e);
    } else {
      SignalledSection(policy, m, e);
    }
    hide Unsignalled, GivesUp, ConsumersOf, NotEmptySignals, QueueAfter;
  }

  /** No step before the `n`-th strands a consumer. */
  ghost predicate NoneStrands(policy: Policy, states: seq<Monitor>, events: seq<Event>, n: nat)
    requires n <= |events| < |states|
  {
    forall i :: 0 <= i < n ==> !StrandsConsumer(policy, states[i], events[i])
  }

  /**
   * Over every run: consumers are served in all states up to the `n`-th if and
   * only if no step before it strands one.
   */
  lemma {:induction false} NoLostConsumer(policy: Policy, states: seq<Monitor>, events: seq<Event>, n: nat)
    requires IsRun(policy, states, events) && ConsumersServed(states[0]) && n <= |events|
    ensures (forall i :: 0 <= i <= n ==> ConsumersServed(states[i])) <==> NoneStrands(policy, states, events, n)
  {
    hide StrandsConsumer, ConsumersServed, Moves;
    if n > 0 {
      NoLostConsumer(policy, states, events, n - 1);
      RunValid(policy, states, events, n - 1);
      if ConsumersServed(states[n - 1]) {
        MoveServesConsumers(policy, states[n - 1], events[n - 1], states[n]);
      }
    }
  }

  /** In a run without any unsignalled requeue and without any giving up, consumers are served throughout. */
  lemma AttentiveRun(policy: Policy, states: seq<Monitor>, events: seq<Event>, n: nat)
    requires IsRun(policy, states, events) && ConsumersServed(states[0]) && n <= |events|
    requires forall i :: 0 <= i < n ==>
      Unsignalled(policy, states[i].queue, events[i]) == 0 && !GivesUp(states[i].queue, events[i])
    ensures ConsumersServed(states[n])
  {
    NoLostConsumer(policy, states, events, n);
  }

  /**
   * Under the repaired policy every requeue is harmless: it takes a woken
   * consumer that gives up to strand another one.
   */
  lemma RepairedRun(states: seq<Monitor>, events: seq<Event>, n: nat)
    requires IsRun(SignallingRequeue, states, events) && ConsumersServed(states[0]) && n <= |events|
    requires forall i :: 0 <= i < n ==> !GivesUp(states[i].queue, events[i])
    ensures ConsumersServed(states[n])
  {
    AttentiveRun(SignallingRequeue, states, events, n);
  }

  /**
   * Once every woken thread has run, a waiting producer means a full queue, in
   * every run; a waiting consumer means an empty one, and never both wait,
   * unless an earlier step stranded a consumer.
   */
  lemma NoDeadlock(policy: Policy, states: seq<Monitor>, events: seq<Event>, n: nat)
    requires IsRun(policy, states, events) && n <= |events|
    requires ProducersServed(states[0]) && ConsumersServed(states[0])
    ensures var m := states[n];
            m.producers.woken == {} && m.consumers.woken == {} ==>
              && (m.producers.waiting != {} ==> m.queue.Full())
              && (NoneStrands(policy, states, events, n) ==>
                    (m.consumers.waiting != {} ==> m.queue.ring == [])
                    && (m.producers.waiting == {} || m.consumers.waiting == {}))
  {
    NoLostProducer(policy, states, events, n);
    NoLostConsumer(policy, states, events, n);
  }

  // ---------------------------------------------------------------- the queue under concurrency

  /** The queue operations of a run, in the order of the sections. */
  function Operations(states: seq<Monitor>, events: seq<Event>): seq<Op>
    requires |states| == |events| + 1
  {
    if events == [] then [] else
    var n := |events| - 1;
    Operations(states[..n + 1], events[..n])
    + match QueueOp(states[n].queue, events[n])
      case None => []
      case Some(op) => [op]
  }

  /**
   * Every concurrent run is, for the queue, a sequential run of its operations:
   * all laws of sequential runs hold for it.
   */
  lemma {:induction false} Linearized(policy: Policy, states: seq<Monitor>, events: seq<Event>)
    requires IsRun(policy, states, events)
    ensures states[|events|].queue == After(states[0].queue, Operations(states, events))
  {
    if events != [] {
      var n := |events| - 1;
      Linearized(policy, states[..n + 1], events[..n]);
      var ops := Operations(states[..n + 1], events[..n]);
      assert Moves(policy, states[n], events[n], states[n + 1]);
      match QueueOp(states[n].queue, events[n])
      case None => assert ops + [] == ops;
      case Some(op) => AfterSnoc(states[0].queue, ops, op);
    }
  }

  /** The blocked calls of `queue_enqueue` that hold `a`. */
  function Holders(t: Threads<Producer>, a: Address): set<Producer> {
    set p | p in t.waiting + t.woken && p.message == a
  }

  /**
   * The event hands `a` to the queue: by `queue_enqueue`, blocking or not, or by
   * a `queue_try_enqueue` that succeeds.
   */
  predicate Brings(q: State, e: Event, a: Address) {
    match e
    case EnqueueCall(p) => p.message == a
    case Direct(op) => op == Enqueue(a) && !q.Full()
    case _ => false
  }

  function Brought(states: seq<Monitor>, events: seq<Event>, a: Address): nat
    requires |states| == |events| + 1
  {
    if events == [] then 0 else
    var n := |events| - 1;
    Brought(states[..n + 1], events[..n], a) + Bit(Brings(states[n].queue, events[n], a))
  }

  /** The section enqueues `a`. */
  predicate Accepts(q: State, e: Event, a: Address) {
    QueueOp(q, e) == Some(Enqueue(a)) && !q.Full()
  }

  /** A signal only moves threads from one set to the other. */
  lemma SignalHolders(n: nat, before: Threads<Producer>, after: Threads<Producer>, a: Address)
    requires Signal(n, before, after)
    ensures Holders(after, a) == Holders(before, a)
  {
    assert after.waiting + after.woken == before.waiting + before.woken;
  }

  lemma HoldersOf(t: Threads<Producer>, p: Producer, a: Address)
    requires t.waiting !! t.woken
    ensures Holders(Blocked(t, p), a) == if p.message == a then Holders(t, a) + {p} else Holders(t, a)
    ensures p in t.woken ==> Holders(Gone(t, p), a) == Holders(t, a) - {p}
    ensures p in t.waiting ==> Holders(Woken(t, p), a) == Holders(t, a)
    ensures p in Holders(t, a) <==> (p in t.waiting || p in t.woken) && p.message == a
  {
  }

  lemma SectionHolders(m: Monitor, e: Event, a: Address)
    requires m.Valid() && Enabled(m, e)
    ensures |Holders(m.producers, a)| + Bit(Brings(m.queue, e, a)) ==
            |Holders(ProducersOf(m, e), a)| + Bit(Accepts(m.queue, e, a))
  {
    hide Holders;
    match e
    case EnqueueCall(p) => HoldersOf(m.producers, p, a);
    case EnqueueResume(p) =>
      HoldersOf(m.producers, p, a);
      assert p.message == a ==> Holders(m.producers, a) + {p} == Holders(m.producers, a);
    case SpuriousProducer(p) => HoldersOf(m.producers, p, a);
    case _ =>
  }

  lemma MoveHolders(policy: Policy, m: Monitor, e: Event, m': Monitor, a: Address)
    requires m.Valid() && Moves(policy, m, e, m')
    ensures |Holders(m.producers, a)| + Bit(Brings(m.queue, e, a)) ==
            |Holders(m'.producers, a)| + Bit(Accepts(m.queue, e, a))
    ensures Accepts(m.queue, e, a) ==> QueueOp(m.queue, e).Some?
  {
    hide Holders, Brings;
    SectionHolders(m, e, a);
    SignalHolders(NotFullSignals(m.queue, e), ProducersOf(m, e), m'.producers, a);
  }

  lemma BookAccepts(l: Ledger, q: State, e: Event, a: Address)
    requires QueueOp(q, e).Some?
    ensures Book(l, q, QueueOp(q, e).value).accepted[a] == l.accepted[a] + Bit(Accepts(q, e, a))
  {
  }

  /** No message of a call gets lost between the callers and the queue. */
  lemma {:induction false} CallersLaw(policy: Policy, states: seq<Monitor>, events: seq<Event>, a: Address)
    requires IsRun(policy, states, events)
    ensures |Holders(states[0].producers, a)| + Brought(states, events, a) ==
            |Holders(states[|events|].producers, a)| + Books(states[0].queue, Operations(states, events)).accepted[a]
  {
    hide Moves, Accepts, Brings, Book, Next, Holders;
    if events != [] {
      var n := |events| - 1;
      var before, after := states[..n + 1], events[..n];
      var ops := Operations(before, after);
      CallersLaw(policy, before, after, a);
      Linearized(policy, before, after);
      RunValid(policy, states, events, n);
      MoveHolders(policy, states[n], events[n], states[n + 1], a);
      match QueueOp(states[n].queue, events[n])
      case None => assert ops + [] == ops;
      case Some(op) =>
        assert (ops + [op])[..|ops|] == ops;
        BookAccepts(Books(states[0].queue, ops), states[n].queue, events[n], a);
    }
  }

  /**
   * Under concurrency, as the code is: every message handed to the queue is
   * with a blocked caller, or held by the queue, or released; plus the
   * releases of entries that were settled again.
   */
  lemma ConcurrentAccounting(policy: Policy, states: seq<Monitor>, events: seq<Event>, a: Address)
    requires IsRun(policy, states, events)
    ensures var first, last, books := states[0], states[|events|], Books(states[0].queue, Operations(states, events));
            |Holders(first.producers, a)| + Held(first.queue, a) + Brought(states, events, a) + books.resettled[a] ==
            |Holders(last.producers, a)| + Held(last.queue, a) + books.Released()[a]
  {
    CallersLaw(policy, states, events, a);
    Linearized(policy, states, events);
    Accounting(states[0].queue, Operations(states, events), a);
  }

  /** A new queue with nobody at it. */
  function Fresh(capacity: nat): Monitor {
    Monitor(Initial(capacity), Threads({}, {}), Threads({}, {}))
  }

  /**
   * A message handed over once is with one caller, or in one place of the queue,
   * or released once, and never two of these.
   */
  lemma ConcurrentOnePlace(policy: Policy, capacity: nat, states: seq<Monitor>, events: seq<Event>, a: Address)
    requires IsRun(policy, states, events) && states[0] == Fresh(capacity) && Brought(states, events, a) == 1
    requires !EverSettlesMarked(Initial(capacity), Operations(states, events))
    ensures |Holders(states[|events|].producers, a)| + Held(states[|events|].queue, a)
            + Books(Initial(capacity), Operations(states, events)).Released()[a] == 1
  {
    ConcurrentAccounting(policy, states, events, a);
    ResettledIff(Initial(capacity), Operations(states, events));
    assert Holders(states[0].producers, a) == {};
  }

  // ---------------------------------------------------------------- what becomes of a call of queue_dequeue

  /** The calls of `queue_dequeue` that are blocked, signalled or not. */
  function Inside(t: Threads<Consumer>): set<Consumer> {
    t.waiting + t.woken
  }

  predicate IsCall(e: Event, c: Consumer) {
    e.DequeueCall? && e.consumer == c
  }

  /** In the section of `e` a call of `c`, new or resumed, finds a message. */
  predicate Finds(q: State, e: Event, c: Consumer) {
    (e.DequeueCall? || e.DequeueResume?) && e.consumer == c && q.ring != []
  }

  /** It leaves with the message: the table has a place, or grows. */
  predicate Obtains(q: State, e: Event, c: Consumer) {
    Finds(q, e, c) && (|q.table| < q.tableCapacity || e.reallocOk)
  }

  /** It leaves without: the table is full and cannot grow. */
  predicate LeavesWithout(q: State, e: Event, c: Consumer) {
    Finds(q, e, c) && |q.table| >= q.tableCapacity && !e.reallocOk
  }

  function Calls(events: seq<Event>, c: Consumer): nat {
    if events == [] then 0 else
    Calls(events[..|events| - 1], c) + Bit(IsCall(events[|events| - 1], c))
  }

  function Obtained(states: seq<Monitor>, events: seq<Event>, c: Consumer): nat
    requires |states| == |events| + 1
  {
    if events == [] then 0 else
    var n := |events| - 1;
    Obtained(states[..n + 1], events[..n], c) + Bit(Obtains(states[n].queue, events[n], c))
  }

  function LeftWithout(states: seq<Monitor>, events: seq<Event>, c: Consumer): nat
    requires |states| == |events| + 1
  {
    if events == [] then 0 else
    var n := |events| - 1;
    LeftWithout(states[..n + 1], events[..n], c) + Bit(LeavesWithout(states[n].queue, events[n], c))
  }

  lemma SignalInside(n: nat, before: Threads<Consumer>, after: Threads<Consumer>)
    requires Signal(n, before, after)
    ensures Inside(after) == Inside(before)
  {
  }

  lemma InsideOf(t: Threads<Consumer>, c: Consumer)
    requires t.waiting !! t.woken
    ensures c in Inside(t) <==> c in t.waiting || c in t.woken
    ensures Inside(Blocked(t, c)) == Inside(t) + {c}
    ensures c in Inside(t) ==> Inside(t) + {c} == Inside(t)
    ensures c in t.waiting ==> Inside(Woken(t, c)) == Inside(t)
    ensures c in t.woken ==> Inside(Gone(t, c)) == Inside(t) - {c}
  {
  }

  /** Only a new call at an empty ring comes in, and only a resumed one at a ring that is not empty goes. */
  lemma MoveInside(policy: Policy, m: Monitor, e: Event, m': Monitor)
    requires m.Valid() && Moves(policy, m, e, m')
    ensures e.DequeueCall? ==> e.consumer !in Inside(m.consumers)
    ensures e.DequeueResume? ==> e.consumer in Inside(m.consumers)
    ensures Inside(m'.consumers) ==
            if e.DequeueCall? && m.queue.ring == [] then Inside(m.consumers) + {e.consumer}
            else if e.DequeueResume? && m.queue.ring != [] then Inside(m.consumers) - {e.consumer}
            else Inside(m.consumers)
  {
    hide NotFullSignals, NotEmptySignals, QueueAfter, Inside, Signal;
    SignalInside(NotEmptySignals(policy, m.queue, e), ConsumersOf(m, e), m'.consumers);
    if e.DequeueCall? || e.DequeueResume? || e.SpuriousConsumer? {
      InsideOf(m.consumers, e.consumer);
    }
  }

  lemma MoveOfCall(policy: Policy, m: Monitor, e: Event, m': Monitor, c: Consumer)
    requires m.Valid() && Moves(policy, m, e, m')
    ensures Bit(c in Inside(m.consumers)) + Bit(IsCall(e, c)) ==
            Bit(c in Inside(m'.consumers)) + Bit(Obtains(m.queue, e, c)) + Bit(LeavesWithout(m.queue, e, c))
  {
    hide Moves;
    MoveInside(policy, m, e, m');
  }

  /**
   * Over every run, for every consumer: it was blocked at the start or called,
   * as often as it is blocked at the end, got a message, or found one that could
   * not be tracked. A call that finds the ring empty does not return.
   */
  lemma {:induction false} DequeueCallsLaw(policy: Policy, states: seq<Monitor>, events: seq<Event>, c: Consumer)
    requires IsRun(policy, states, events)
    ensures Bit(c in Inside(states[0].consumers)) + Calls(events, c) ==
            Bit(c in Inside(states[|events|].consumers)) + Obtained(states, events, c) + LeftWithout(states, events, c)
  {
    hide Moves, IsCall, Obtains, LeavesWithout, Inside;
    if events != [] {
      var n := |events| - 1;
      DequeueCallsLaw(policy, states[..n + 1], events[..n], c);
      RunValid(policy, states, events, n);
      MoveOfCall(policy, states[n], events[n], states[n + 1], c);
    }
  }

  /** Some call of `queue_dequeue` gets a message in the section of `e`; and so does a `queue_try_dequeue`. */
  predicate AnyObtains(q: State, e: Event) {
    (e.DequeueCall? || e.DequeueResume?) && Obtains(q, e, e.consumer)
  }

  predicate Tries(q: State, e: Event) {
    e.Direct? && e.op.Dequeue? && q.ring != [] && (|q.table| < q.tableCapacity || e.op.reallocOk)
  }

  predicate AnyLeavesWithout(q: State, e: Event) {
    (e.DequeueCall? || e.DequeueResume?) && LeavesWithout(q, e, e.consumer)
  }

  /** The calls of a run, and what the sections of calls and of tries came to. */
  datatype Tally = Tally(calls: nat, tried: nat, without: nat)

  function Tallied(states: seq<Monitor>, events: seq<Event>): Tally
    requires |states| == |events| + 1
  {
    if events == [] then Tally(0, 0, 0) else
    var n := |events| - 1;
    var t, q, e := Tallied(states[..n + 1], events[..n]), states[n].queue, events[n];
    Tally(t.calls + Bit(e.DequeueCall?), t.tried + Bit(Tries(q, e)), t.without + Bit(AnyLeavesWithout(q, e)))
  }

  lemma MoveOfCalls(policy: Policy, m: Monitor, e: Event, m': Monitor)
    requires m.Valid() && Moves(policy, m, e, m')
    ensures |Inside(m.consumers)| + Bit(e.DequeueCall?) ==
            |Inside(m'.consumers)| + Bit(AnyObtains(m.queue, e)) + Bit(AnyLeavesWithout(m.queue, e))
  {
    hide Moves;
    MoveInside(policy, m, e, m');
  }

  /** The ledger counts a delivery for exactly these sections. */
  lemma BookDelivers(l: Ledger, q: State, e: Event)
    ensures var delivers := AnyObtains(q, e) || Tries(q, e);
            match QueueOp(q, e)
            case None => !delivers
            case Some(op) => Book(l, q, op).deliveries == l.deliveries + Bit(delivers)
  {
  }

  /**
   * And in all: the calls that were blocked or made are the calls still blocked,
   * the deliveries the queue has on its books less those of `queue_try_dequeue`,
   * and the calls that found a message that could not be tracked.
   */
  lemma {:induction false} DequeueLedger(policy: Policy, states: seq<Monitor>, events: seq<Event>)
    requires IsRun(policy, states, events)
    ensures var t, books := Tallied(states, events), Books(states[0].queue, Operations(states, events));
            |Inside(states[0].consumers)| + t.calls + t.tried ==
            |Inside(states[|events|].consumers)| + books.deliveries + t.without
  {
    hide Moves, AnyObtains, Tries, AnyLeavesWithout, Inside, Book, Next;
    if events != [] {
      var n := |events| - 1;
      var ops := Operations(states[..n + 1], events[..n]);
      DequeueLedger(policy, states[..n + 1], events[..n]);
      Linearized(policy, states[..n + 1], events[..n]);
      RunValid(policy, states, events, n);
      MoveOfCalls(policy, states[n], events[n], states[n + 1]);
      BookDelivers(Books(states[0].queue, ops), states[n].queue, events[n]);
      EitherWay(states[n].queue, events[n]);
      match QueueOp(states[n].queue, events[n])
      case None => assert ops + [] == ops;
      case Some(op) => assert (ops + [op])[..|ops|] == ops;
    }
  }

  lemma EitherWay(q: State, e: Event)
    ensures !(AnyObtains(q, e) && Tries(q, e))
  {
  }

  // ---------------------------------------------------------------- where a consumer is stranded

  /**
   * As written, a reject with requeue into an empty queue strands every
   * consumer that waits there: the message comes back and nobody is told.
   */
  lemma RequeueStrandsConsumers(m: Monitor, i: nat, m': Monitor)
    requires m.Valid() && TagsOrdered(m.queue) && i < |m.queue.table|
    requires m.queue.ring == [] && m.consumers.waiting != {} && m.consumers.woken == {}
    requires Moves(AsWritten, m, Direct(Refuse(m.queue.table[i].tag, true)), m')
    ensures ConsumersServed(m) && !ConsumersServed(m')
    ensures m'.queue.ring == [m.queue.table[i].message] && m'.consumers == m.consumers
  {
    hide Step;
    RequeueAlone(m.queue, i);
  }

  lemma RequeueAlone(q: State, i: nat)
    requires q.Valid() && TagsOrdered(q) && i < |q.table| && q.ring == []
    ensures Next(q, Refuse(q.table[i].tag, true)).ring == [q.table[i].message]
  {
    SettleAt(q, i);
  }

  /** A step of a queue on which no thread is blocked. */
  lemma QuietMove(policy: Policy, m: Monitor, op: Op)
    requires m.producers == Threads({}, {}) && m.consumers == Threads({}, {})
    ensures Moves(policy, m, Direct(op), m.(queue := Next(m.queue, op)))
  {
  }

  lemma OneDelivery()
    ensures Next(Initial(1), Enqueue(7)) == State(1, [7], [], 100, 1)
    ensures Next(State(1, [7], [], 100, 1), Dequeue(0, true)) == State(1, [], [Entry(7, 1, 0, Delivered)], 100, 2)
  {
  }

  lemma RunSnoc(policy: Policy, states: seq<Monitor>, events: seq<Event>, e: Event, m: Monitor)
    requires IsRun(policy, states, events) && Moves(policy, states[|events|], e, m)
    ensures IsRun(policy, states + [m], events + [e])
  {
  }

  lemma WaitsAtEmpty(m: Monitor, c: Consumer, m': Monitor)
    requires m.queue.ring == [] && m.consumers == Threads({}, {}) && m' == m.(consumers := Threads({c}, {}))
    ensures Moves(AsWritten, m, DequeueCall(c, 0, true), m')
  {
    assert m.consumers.waiting + {c} == {c};
  }

  /** A reject wakes nobody. */
  lemma QuietReject(m: Monitor, tag: nat)
    ensures Moves(AsWritten, m, Direct(Refuse(tag, true)), m.(queue := Next(m.queue, Refuse(tag, true))))
  {
  }

  /** From a new queue, four sections: one consumer holds the only message, another one waits, the reject strands it. */
  lemma StrandingIsReached() returns (m1: Monitor, m2: Monitor, m3: Monitor, m4: Monitor)
    ensures IsRun(AsWritten, [Fresh(1), m1, m2, m3, m4],
                  [Direct(Enqueue(7)), Direct(Dequeue(0, true)), DequeueCall(5, 0, true), Direct(Refuse(1, true))])
    ensures ConsumersServed(m3) && !ConsumersServed(m4)
    ensures m4.queue.ring == [7] && m4.consumers == Threads({5}, {})
  {
    m1 := Fresh(1).(queue := State(1, [7], [], 100, 1));
    m2 := Fresh(1).(queue := State(1, [], [Entry(7, 1, 0, Delivered)], 100, 2));
    m3 := m2.(consumers := Threads({5}, {}));
    m4 := m3.(queue := Next(m3.queue, Refuse(1, true)));
    hide Moves, Next, ConsumersServed;
    OneDelivery();
    QuietMove(AsWritten, Fresh(1), Enqueue(7));
    QuietMove(AsWritten, m1, Dequeue(0, true));
    WaitsAtEmpty(m2, 5, m3);
    QuietReject(m3, 1);
    RejectStrands(m3, m4);
  }

  lemma RejectStrands(m: Monitor, m': Monitor)
    requires m == Monitor(State(1, [], [Entry(7, 1, 0, Delivered)], 100, 2), Threads({}, {}), Threads({5}, {}))
    requires Moves(AsWritten, m, Direct(Refuse(1, true)), m')
    ensures ConsumersServed(m) && !ConsumersServed(m') && m'.queue.ring == [7] && m'.consumers == m.consumers
  {
    hide Moves, Next;
    RequeueStrandsConsumers(m, 0, m');
  }

  /** `k` deliveries, of a message each, that nobody acknowledges. */
  lemma {:induction false} FillTable(policy: Policy, k: nat) returns (states: seq<Monitor>, events: seq<Event>)
    requires k <= DEFAULT_UNACKED_CAPACITY
    ensures IsRun(policy, states, events) && states[0] == Fresh(1)
    ensures var m := states[|events|];
            && m.producers == Threads({}, {}) && m.consumers == Threads({}, {})
            && m.queue.ring == [] && m.queue.capacity == 1
            && |m.queue.table| == k && m.queue.tableCapacity == DEFAULT_UNACKED_CAPACITY
            && forall i :: 0 <= i < k ==> m.queue.table[i].message == i
  {
    states, events := [Fresh(1)], [];
    if k > 0 {
      states, events := FillTable(policy, k - 1);
      var m0 := states[|events|];
      var m1 := m0.(queue := Next(m0.queue, Enqueue(k - 1)));
      var m2 := m1.(queue := Next(m1.queue, Dequeue(0, true)));
      QuietMove(policy, m0, Enqueue(k - 1));
      RunSnoc(policy, states, events, Direct(Enqueue(k - 1)), m1);
      QuietMove(policy, m1, Dequeue(0, true));
      RunSnoc(policy, states + [m1], events + [Direct(Enqueue(k - 1))], Direct(Dequeue(0, true)), m2);
      states, events := states + [m1] + [m2], events + [Direct(Enqueue(k - 1))] + [Direct(Dequeue(0, true))];
    }
  }

  lemma GivingUpMoves(policy: Policy, m0: Monitor, m1: Monitor, m2: Monitor, m3: Monitor, m4: Monitor)
    requires m0.producers == Threads({}, {}) && m0.consumers == Threads({}, {})
    requires m0.queue.ring == [] && m0.queue.capacity == 1 && |m0.queue.table| == m0.queue.tableCapacity
    requires m1 == m0.(consumers := Threads({1}, {})) && m2 == m0.(consumers := Threads({1, 2}, {}))
    requires m3 == m0.(queue := Append(m0.queue, 100), consumers := Threads({2}, {1}))
    requires m4 == m3.(consumers := Threads({2}, {}))
    ensures Moves(policy, m0, DequeueCall(1, 0, true), m1) && Moves(policy, m1, DequeueCall(2, 0, true), m2)
    ensures Moves(policy, m2, Direct(Enqueue(100)), m3) && Moves(policy, m3, DequeueResume(1, 0, false), m4)
    ensures GivesUp(m3.queue, DequeueResume(1, 0, false)) && ConsumersServed(m3) && !ConsumersServed(m4)
  {
    hide Step;
    assert m0.consumers.waiting + {1} == {1} && m1.consumers.waiting + {2} == {1, 2};
    assert {1, 2} - {2} == {1} && {1} - {1} == {};
    GivingUpSteps(m0.queue, m3.queue);
  }

  lemma GivingUpSteps(q: State, q': State)
    requires q.ring == [] && q.capacity == 1 && |q.table| == q.tableCapacity && q' == Append(q, 100)
    ensures Step(q, Enqueue(100)) == Outcome(q', true, [])
    ensures Step(q', Dequeue(0, false)) == Outcome(q', false, [])
  {
  }

  /**
   * The other cause is reached too, under both policies: the table is full, two
   * consumers wait, an enqueue wakes one; it cannot track the message, and the
   * other one waits beside it.
   */
  lemma GivingUpIsReached(policy: Policy) returns (states: seq<Monitor>, events: seq<Event>)
    ensures |events| > 0 && IsRun(policy, states, events) && states[0] == Fresh(1)
    ensures var n := |events| - 1;
            && GivesUp(states[n].queue, events[n])
            && ConsumersServed(states[n]) && !ConsumersServed(states[n + 1])
            && states[n + 1].queue.ring == [100] && states[n + 1].consumers == Threads({2}, {})
  {
    states, events := FillTable(policy, DEFAULT_UNACKED_CAPACITY);
    var m0 := states[|events|];
    var m1 := m0.(consumers := Threads({1}, {}));
    var m2 := m0.(consumers := Threads({1, 2}, {}));
    var m3 := m0.(queue := Append(m0.queue, 100), consumers := Threads({2}, {1}));
    var m4 := m3.(consumers := Threads({2}, {}));
    GivingUpMoves(policy, m0, m1, m2, m3, m4);
    hide Moves, ConsumersServed, GivesUp;
    RunSnoc(policy, states, events, DequeueCall(1, 0, true), m1);
    states, events := states + [m1], events + [DequeueCall(1, 0, true)];
    RunSnoc(policy, states, events, DequeueCall(2, 0, true), m2);
    states, events := states + [m2], events + [DequeueCall(2, 0, true)];
    RunSnoc(policy, states, events, Direct(Enqueue(100)), m3);
    states, events := states + [m3], events + [Direct(Enqueue(100))];
    RunSnoc(policy, states, events, DequeueResume(1, 0, false), m4);
    states, events := states + [m4], events + [DequeueResume(1, 0, false)];
  }
}
