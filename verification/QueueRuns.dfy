/** Whole runs of one queue: what every call moves, and what a ledger of all calls adds up to. */
module QueueRuns {
  import opened Sequences
  import opened Memory
  import opened QueueModel

  /** One call, with the clock reading and the answer of the allocator it met. */
  datatype Op =
    | Enqueue(message: Address)
    | Dequeue(now: int, reallocOk: bool)
    | Acknowledge(tag: nat)
    | Refuse(tag: nat, requeue: bool)
    | Timeouts(now: int, timeout: int)

  function Step(s: State, op: Op): Outcome {
    match op
    case Enqueue(m) => TryEnqueue(s, m)
    case Dequeue(now, reallocOk) => TryDequeue(s, now, reallocOk)
    case Acknowledge(tag) => Ack(s, tag)
    case Refuse(tag, requeue) => Reject(s, tag, requeue)
    case Timeouts(now, timeout) => Sweep(s, now, timeout)
  }

  function Next(s: State, op: Op): State {
    Step(s, op).next
  }

  /** The state at the end of a run. */
  function After(s: State, ops: seq<Op>): State {
    Fold(Next, s, ops)
  }

  lemma AfterSnoc(s: State, ops: seq<Op>, op: Op)
    ensures After(s, ops + [op]) == Next(After(s, ops), op)
  {
    assert (ops + [op])[..|ops|] == ops;
  }

  lemma AfterNone(s: State, ops: seq<Op>)
    requires ops == []
    ensures After(s, ops) == s
  {
  }

  lemma AfterConcat(s: State, a: seq<Op>, b: seq<Op>)
    ensures After(s, a + b) == After(After(s, a), b)
  {
    FoldConcat(Next, s, a, b);
  }

  lemma StepValid(s: State, op: Op)
    requires s.Valid()
    ensures Next(s, op).Valid() && Next(s, op).capacity == s.capacity
  {
  }

  lemma {:induction false} AfterValid(s: State, ops: seq<Op>)
    requires s.Valid()
    ensures After(s, ops).Valid() && After(s, ops).capacity == s.capacity
  {
    if ops != [] {
      AfterValid(s, ops[..|ops| - 1]);
      StepValid(After(s, ops[..|ops| - 1]), ops[|ops| - 1]);
    }
  }

  /** The books of a run: what came in, what was released on which account, and what was settled a second time. */
  datatype Ledger = Ledger(
    accepted: multiset<Address>,
    acked: multiset<Address>,
    rejected: multiset<Address>,
    dropped: multiset<Address>,
    resettled: multiset<Address>,
    deliveries: nat)
  {
    function Released(): multiset<Address> {
      acked + rejected + dropped
    }
  }

  const EMPTY_LEDGER := Ledger(multiset{}, multiset{}, multiset{}, multiset{}, multiset{}, 0)

  /** The entry an ack or reject would settle. */
  function Target(s: State, op: Op): (i: nat)
    ensures i <= |s.table|
  {
    match op
    case Acknowledge(tag) => Find(s.table, tag)
    case Refuse(tag, _) => Find(s.table, tag)
    case _ => |s.table|
  }

  /** The call hits an entry that an earlier sweep marked and released, but left in the table. */
  predicate SettlesMarked(s: State, op: Op) {
    Target(s, op) < |s.table| && s.table[Target(s, op)].status == Acknowledged
  }

  function One(m: Address, when: bool): multiset<Address> {
    if when then multiset{m} else multiset{}
  }

  function Book(l: Ledger, s: State, op: Op): Ledger {
    var o := Step(s, op);
    var released := multiset(o.released);
    match op
    case Enqueue(m) => l.(accepted := l.accepted + One(m, o.done))
    case Dequeue(_, _) => l.(deliveries := if o.done then l.deliveries + 1 else l.deliveries)
    case Acknowledge(_) =>
      l.(acked := l.acked + released, resettled := l.resettled + Again(s, op))
    case Refuse(_, requeue) =>
      l.(rejected := if requeue then l.rejected else l.rejected + released,
         dropped := if requeue then l.dropped + released else l.dropped,
         resettled := l.resettled + Again(s, op))
    case Timeouts(_, _) => l.(dropped := l.dropped + released)
  }

  function Again(s: State, op: Op): multiset<Address> {
    if SettlesMarked(s, op) then multiset{s.table[Target(s, op)].message} else multiset{}
  }

  /** The ledger of a whole run from `s`. */
  function Books(s: State, ops: seq<Op>): Ledger {
    if ops == [] then EMPTY_LEDGER else
    var n := |ops| - 1;
    Book(Books(s, ops[..n]), After(s, ops[..n]), ops[n])
  }

  // ---------------------------------------------------------------- conservation

  function Bit(b: bool): nat {
    if b then 1 else 0
  }

  /** How many entries of the table still owe `m`: those not marked ACKNOWLEDGED. */
  function Owed(table: seq<Entry>, m: Address): nat {
    if table == [] then 0 else
    var last := table[|table| - 1];
    Owed(table[..|table| - 1], m) + Bit(last.message == m && last.status != Acknowledged)
  }

  /** How often the queue holds `m`, in the ring or as an outstanding delivery. */
  function Held(s: State, m: Address): nat {
    multiset(s.ring)[m] + Owed(s.table, m)
  }

  lemma {:induction false} OwedPending(table: seq<Entry>, m: Address)
    ensures Owed(Pending(table), m) == Owed(table, m) == multiset(Messages(Pending(table)))[m]
  {
    if table != [] {
      var n := |table| - 1;
      OwedPending(table[..n], m);
      var rest := Pending(table[..n]);
      if table[n].status != Acknowledged {
        assert (rest + [table[n]])[..|rest|] == rest;
        assert Messages(rest + [table[n]]) == Messages(rest) + [table[n].message];
      }
    }
  }

  lemma {:induction false} OwedMark(table: seq<Entry>, i: nat, m: Address)
    requires i < |table|
    ensures Owed(table, m) == Owed(Mark(table, i), m) + Bit(table[i].message == m && table[i].status != Acknowledged)
  {
    var n := |table| - 1;
    if i < n {
      OwedMark(table[..n], i, m);
      assert Mark(table, i)[..n] == Mark(table[..n], i);
    } else {
      assert Mark(table, i)[..n] == table[..n];
    }
  }

  lemma {:induction false} OwedMarkExpired(table: seq<Entry>, now: int, timeout: int, m: Address)
    ensures Owed(table, m) == Owed(MarkExpired(table, now, timeout), m) + multiset(Overdue(table, now, timeout))[m]
  {
    if table != [] {
      var n := |table| - 1;
      OwedMarkExpired(table[..n], now, timeout, m);
      assert MarkExpired(table, now, timeout)[..n] == MarkExpired(table[..n], now, timeout);
    }
  }

  lemma OwedKept(table: seq<Entry>, now: int, timeout: int, m: Address)
    ensures Owed(Kept(table, now, timeout), m) == Owed(MarkExpired(table, now, timeout), m)
  {
    OwedPending(MarkExpired(table, now, timeout), m);
    PendingMarkExpired(table, now, timeout);
  }

  /** One call: what comes in, plus what is settled twice, is what stays or is released. */
  lemma StepBalance(s: State, op: Op, m: Address)
    ensures var o := Step(s, op);
            Held(s, m) + Bit(op == Enqueue(m) && o.done) + Again(s, op)[m] == Held(o.next, m) + multiset(o.released)[m]
  {
    match op
    case Enqueue(_) =>
    case Dequeue(now, reallocOk) => DeliverBalance(s, now, m);
    case Acknowledge(_) => SettleBalance(s, Target(s, op), m);
    case Refuse(_, _) => SettleBalance(s, Target(s, op), m);
    case Timeouts(now, timeout) => SweepBalance(s, now, timeout, m);
  }

  lemma DeliverBalance(s: State, now: int, m: Address)
    ensures s.ring != [] ==> Held(Deliver(s, now), m) == Held(s, m)
  {
    if s.ring != [] {
      assert s.ring == [s.ring[0]] + s.ring[1..];
      assert Deliver(s, now).table[..|s.table|] == s.table;
    }
  }

  lemma SettleBalance(s: State, i: nat, m: Address)
    requires i <= |s.table|
    ensures i < |s.table| ==>
      Owed(s.table, m) ==
      Owed(Settle(s, i).table, m) + Bit(s.table[i].message == m && s.table[i].status != Acknowledged)
  {
    if i < |s.table| {
      OwedMark(s.table, i, m);
      OwedPending(Mark(s.table, i), m);
    }
  }

  lemma PutBackBalance(s: State, taken: seq<Address>, m: Address)
    ensures var r := PutBack(s, taken);
            multiset(r.ring)[m] + multiset(r.released)[m] == multiset(s.ring)[m] + multiset(taken)[m]
  {
    var k := PutBack(s, taken).requeued;
    ReverseMultiset(taken[..k]);
    assert taken == taken[..k] + taken[k..];
  }

  lemma SweepBalance(s: State, now: int, timeout: int, m: Address)
    ensures var o := Sweep(s, now, timeout); Held(s, m) == Held(o.next, m) + multiset(o.released)[m]
  {
    PutBackBalance(s, Overdue(s.table, now, timeout), m);
    OwedMarkExpired(s.table, now, timeout, m);
    OwedKept(s.table, now, timeout, m);
  }

  lemma BookBalance(l: Ledger, s: State, op: Op, m: Address)
    ensures var o, after := Step(s, op), Book(l, s, op);
            && after.accepted[m] == l.accepted[m] + Bit(op == Enqueue(m) && o.done)
            && after.resettled[m] == l.resettled[m] + Again(s, op)[m]
            && after.Released()[m] == l.Released()[m] + multiset(o.released)[m]
  {
  }

  /**
   * The law of every run, as the code is: what the queue held, what it
   * accepted and what it settled a second time is exactly what it holds at the
   * end plus what acks, rejects and lack of room released.
   */
  lemma {:induction false} Accounting(s: State, ops: seq<Op>, m: Address)
    ensures var books := Books(s, ops);
            Held(s, m) + books.accepted[m] + books.resettled[m] == Held(After(s, ops), m) + books.Released()[m]
  {
    if ops != [] {
      var n := |ops| - 1;
      Accounting(s, ops[..n], m);
      StepBalance(After(s, ops[..n]), ops[n], m);
      BookBalance(Books(s, ops[..n]), After(s, ops[..n]), ops[n], m);
    }
  }

  /** Nothing is lost, and nothing counted twice. */
  ghost predicate Conserved(s: State, ops: seq<Op>) {
    var books := Books(s, ops);
    forall m :: Held(s, m) + books.accepted[m] == Held(After(s, ops), m) + books.Released()[m]
  }

  /** Some call of the run settles an entry that a sweep had released before. */
  predicate EverSettlesMarked(s: State, ops: seq<Op>) {
    ops != [] &&
    var n := |ops| - 1;
    EverSettlesMarked(s, ops[..n]) || SettlesMarked(After(s, ops[..n]), ops[n])
  }

  lemma {:induction false} ResettledIff(s: State, ops: seq<Op>)
    ensures Books(s, ops).resettled != multiset{} <==> EverSettlesMarked(s, ops)
  {
    hide Next;
    if ops != [] {
      var n := |ops| - 1;
      ResettledIff(s, ops[..n]);
      var before := After(s, ops[..n]);
      var again := Again(before, ops[n]);
      assert Books(s, ops).resettled == Books(s, ops[..n]).resettled + again;
      if SettlesMarked(before, ops[n]) {
        assert before.table[Target(before, ops[n])].message in again;
      }
    }
  }

  /** Conservation holds for a run exactly when no call of it settles an already marked entry. */
  lemma ConservationIff(s: State, ops: seq<Op>)
    ensures Conserved(s, ops) <==> !EverSettlesMarked(s, ops)
  {
    var books := Books(s, ops);
    ResettledIff(s, ops);
    forall m
      ensures Held(s, m) + books.accepted[m] + books.resettled[m] == Held(After(s, ops), m) + books.Released()[m]
    {
      Accounting(s, ops, m);
    }
    if books.resettled != multiset{} {
      var m :| m in books.resettled;
      assert Held(s, m) + books.accepted[m] != Held(After(s, ops), m) + books.Released()[m];
    }
  }

  /**
   * With conservation, a message accepted once by a new queue is in one place
   * only: one cell of the ring, one outstanding delivery, or released, once.
   */
  lemma OnePlace(capacity: nat, ops: seq<Op>, m: Address)
    requires !EverSettlesMarked(Initial(capacity), ops)
    ensures var s, books := After(Initial(capacity), ops), Books(Initial(capacity), ops);
            books.accepted[m] == 1 ==> multiset(s.ring)[m] + Owed(s.table, m) + books.Released()[m] == 1
  {
    ConservationIff(Initial(capacity), ops);
  }

  /**
   * Over the whole life of a queue, `queue_free` included, a message is released
   * as often as it was accepted or settled again.
   */
  lemma LifetimeBalance(capacity: nat, ops: seq<Op>, m: Address)
    ensures var books := Books(Initial(capacity), ops);
            books.Released()[m] + multiset(Destroy(After(Initial(capacity), ops)))[m]
            == books.accepted[m] + books.resettled[m]
  {
    Accounting(Initial(capacity), ops, m);
    OwedPending(After(Initial(capacity), ops).table, m);
  }

  // ---------------------------------------------------------------- clean tables

  /** The one call that leaves marked entries behind: a sweep of a full queue that finds an expired delivery. */
  predicate StrandsMarks(s: State, op: Op) {
    op.Timeouts? && 0 < op.timeout && s.Full() && Overdue(s.table, op.now, op.timeout) != []
  }

  predicate EverStrandsMarks(s: State, ops: seq<Op>) {
    ops != [] &&
    var n := |ops| - 1;
    EverStrandsMarks(s, ops[..n]) || StrandsMarks(After(s, ops[..n]), ops[n])
  }

  lemma {:induction false} PendingMembers(table: seq<Entry>, e: Entry)
    ensures e in Pending(table) <==> e in table && e.status != Acknowledged
  {
    if table != [] {
      var n := |table| - 1;
      PendingMembers(table[..n], e);
      assert e in table <==> e in table[..n] || e == table[n];
    }
  }

  lemma {:induction false} KeptMembers(table: seq<Entry>, now: int, timeout: int, e: Entry)
    ensures e in Kept(table, now, timeout) <==>
      e in table && !IsExpired(e, now, timeout) && e.status != Acknowledged
  {
    if table != [] {
      var n := |table| - 1;
      KeptMembers(table[..n], now, timeout, e);
      assert e in table <==> e in table[..n] || e == table[n];
    }
  }

  lemma {:induction false} OverdueEmpty(table: seq<Entry>, now: int, timeout: int)
    ensures Overdue(table, now, timeout) == [] <==> forall e :: e in table ==> !IsExpired(e, now, timeout)
  {
    if table != [] {
      var n := |table| - 1;
      OverdueEmpty(table[..n], now, timeout);
      assert forall e :: e in table <==> e in table[..n] || e == table[n];
    }
  }

  /** From a clean table, a call leaves a clean table unless it is a sweep of a full queue with an expired delivery. */
  lemma CleanIff(s: State, op: Op)
    requires s.Valid() && Clean(s.table)
    ensures Clean(Step(s, op).next.table) <==> !StrandsMarks(s, op)
  {
    match op
    case Enqueue(_) =>
    case Dequeue(_, _) =>
    case Acknowledge(_) => SettleClean(s, Target(s, op));
    case Refuse(_, _) => SettleClean(s, Target(s, op));
    case Timeouts(now, timeout) => SweepClean(s, now, timeout);
  }

  lemma SettleClean(s: State, i: nat)
    requires Clean(s.table)
    ensures i < |s.table| ==> Clean(Settle(s, i).table)
  {
    if i < |s.table| {
      forall e | e in Settle(s, i).table
        ensures e.status == Delivered
      {
        PendingMembers(Mark(s.table, i), e);
      }
    }
  }

  lemma SweepClean(s: State, now: int, timeout: int)
    requires s.Valid() && Clean(s.table)
    ensures Clean(Sweep(s, now, timeout).next.table) <==> !StrandsMarks(s, Timeouts(now, timeout))
  {
    OverdueEmpty(s.table, now, timeout);
    var marked := MarkExpired(s.table, now, timeout);
    forall e | e in Kept(s.table, now, timeout)
      ensures e.status == Delivered
    {
      KeptMembers(s.table, now, timeout, e);
    }
    if StrandsMarks(s, Timeouts(now, timeout)) {
      var e :| e in s.table && IsExpired(e, now, timeout);
      var i :| 0 <= i < |s.table| && s.table[i] == e;
      assert marked[i] in marked && marked[i].status == Acknowledged;
    } else if Overdue(s.table, now, timeout) == [] {
      assert marked == s.table;
    }
  }

  lemma {:induction false} CleanRuns(s: State, ops: seq<Op>)
    requires s.Valid() && Clean(s.table) && !EverStrandsMarks(s, ops)
    ensures Clean(After(s, ops).table)
    ensures !EverSettlesMarked(s, ops)
  {
    if ops != [] {
      var n := |ops| - 1;
      CleanRuns(s, ops[..n]);
      AfterValid(s, ops[..n]);
      CleanIff(After(s, ops[..n]), ops[n]);
    }
  }

  /** Without such a sweep, every run conserves its messages. */
  lemma Conservation(s: State, ops: seq<Op>)
    requires s.Valid() && Clean(s.table) && !EverStrandsMarks(s, ops)
    ensures Conserved(s, ops)
  {
    CleanRuns(s, ops);
    ConservationIff(s, ops);
  }
}
