/**
 * Runs of a queue: undoing deliveries, room for requeues, growth of the table,
 * and the call sequence that releases twice.
 */
module QueueBounds {
  import opened Sequences
  import opened Memory
  import opened QueueModel
  import opened QueueRuns
  import opened QueueOrder

  // ---------------------------------------------------------------- delivering and requeueing

  /** The table entries of deliveries in a row. */
  function Deliveries(ms: seq<Address>, tag: nat, times: seq<int>): (d: seq<Entry>)
    requires |times| == |ms|
    ensures |d| == |ms|
  {
    seq(|ms|, i requires 0 <= i < |ms| => Entry(ms[i], tag + i, times[i], Delivered))
  }

  function Dequeues(times: seq<int>): (ops: seq<Op>)
    ensures |ops| == |times|
  {
    seq(|times|, i requires 0 <= i < |times| => Dequeue(times[i], true))
  }

  /** Rejects with requeue of the tags `tag`, `tag + 1`, ... in the order of delivery. */
  function RefuseForward(tag: nat, k: nat): (ops: seq<Op>)
    ensures |ops| == k
  {
    seq(k, i requires 0 <= i < k => Refuse(tag + i, true))
  }

  /** The same rejects, the last delivery first. */
  function RefuseBackward(tag: nat, k: nat): (ops: seq<Op>)
    ensures |ops| == k
  {
    seq(k, i requires 0 <= i < k => Refuse(tag + (k - 1 - i), true))
  }

  /** A state as runs reach it, marked entries included. */
  ghost predicate Orderly(s: State) {
    s.Valid() && TagsOrdered(s)
  }

  lemma {:induction false} DequeueMany(s: State, times: seq<int>)
    requires s.Valid() && |times| <= |s.ring| && s.nextTag + |times| <= 0xFFFF_FFFF_FFFF_FFFF
    ensures var t, k := After(s, Dequeues(times)), |times|;
            && t.Valid() && t.capacity == s.capacity
            && t.ring == s.ring[k..]
            && t.table == s.table + Deliveries(s.ring[..k], s.nextTag, times)
            && t.nextTag == s.nextTag + k
  {
    var k := |times|;
    if k > 0 {
      DequeueMany(s, times[..k - 1]);
      assert Dequeues(times)[..k - 1] == Dequeues(times[..k - 1]);
      assert Deliveries(s.ring[..k], s.nextTag, times)
          == Deliveries(s.ring[..k - 1], s.nextTag, times[..k - 1])
             + [Entry(s.ring[k - 1], s.nextTag + (k - 1), times[k - 1], Delivered)];
    }
  }

  /** A reject with requeue, with room in the ring: the entry goes out of the table, and all marked ones with it. */
  lemma RequeueBetween(s: State, a: seq<Entry>, e: Entry, c: seq<Entry>)
    requires s.Valid() && Sorted(s.table, TagLess) && s.table == a + [e] + c && |s.ring| < s.capacity
    ensures Next(s, Refuse(e.tag, true)) == s.(table := Pending(a) + Pending(c), ring := [e.message] + s.ring)
  {
    hide Pending, Find, Settle, Sorted;
    assert s.table[|a|] == e && s.table[..|a|] == a && s.table[|a| + 1..] == c;
    SettleAt(s, |a|);
  }

  lemma {:induction false} PendingTwice(table: seq<Entry>)
    ensures Pending(Pending(table)) == Pending(table)
  {
    if table != [] {
      var n := |table| - 1;
      PendingTwice(table[..n]);
      PendingConcat(Pending(table[..n]), Pending([table[n]]));
      PendingConcat(table[..n], [table[n]]);
      assert table == table[..n] + [table[n]];
    }
  }

  /**
   * Some entries of the table, and then outstanding deliveries under the tags
   * from `tag` on, with room to take them back.
   */
  ghost predicate EndsWith(s: State, front: seq<Entry>, out: seq<Entry>, tag: nat) {
    && s.Valid() && Sorted(s.table, TagLess)
    && s.table == front + out && Clean(out)
    && |s.ring| + |out| <= s.capacity
    && forall i :: 0 <= i < |out| ==> out[i].tag == tag + i
  }

  lemma SortedWithout(front: seq<Entry>, a: seq<Entry>, e: Entry, c: seq<Entry>)
    requires Sorted(front + (a + [e] + c), TagLess)
    ensures Sorted(front + (a + c), TagLess)
  {
    var all, rest, k := front + (a + [e] + c), front + (a + c), |front + a|;
    assert forall j :: 0 <= j < |rest| ==> rest[j] == all[if j < k then j else j + 1];
  }

  lemma PendingFront(front: seq<Entry>, a: seq<Entry>, c: seq<Entry>)
    requires Clean(a + c)
    ensures Pending(front + a) + Pending(c) == Pending(front) + (a + c) == Pending(front + (a + c))
  {
    assert forall e :: e in a || e in c ==> e in a + c;
    PendingConcat(front, a);
    PendingConcat(front, a + c);
    PendingClean(a);
    PendingClean(c);
    PendingClean(a + c);
    Regroup(Pending(front), a, c);
  }

  /** One of those deliveries goes back: what was marked before them is compacted away. */
  lemma RequeueOne(s: State, front: seq<Entry>, a: seq<Entry>, e: Entry, c: seq<Entry>)
    requires s.Valid() && Sorted(s.table, TagLess)
    requires s.table == front + (a + [e] + c) && Clean(a + [e] + c) && |s.ring| < s.capacity
    ensures var t := Next(s, Refuse(e.tag, true));
            && t == s.(table := Pending(front) + (a + c), ring := [e.message] + s.ring)
            && t.Valid() && Sorted(t.table, TagLess) && Clean(a + c)
  {
    hide Next, Pending, Sorted;
    assert s.table == (front + a) + [e] + c;
    RequeueBetween(s, front + a, e, c);
    assert forall x :: x in a || x in c ==> x in a + [e] + c;
    PendingFront(front, a, c);
    StepValid(s, Refuse(e.tag, true));
    SortedWithout(front, a, e, c);
    PendingSorted(front + (a + c), TagLess);
  }

  lemma EndTags(s: State, front: seq<Entry>, out: seq<Entry>, tag: nat)
    requires EndsWith(s, front, out, tag)
    ensures s.table == front + out
    ensures out != [] ==> out[0].tag == tag && out[|out| - 1].tag == tag + |out| - 1
  {
  }

  lemma LastGoesBack(s: State, front: seq<Entry>, kept: seq<Entry>, e: Entry, tag: nat)
    requires EndsWith(s, front, kept + [e], tag)
    ensures var t := Next(s, Refuse(e.tag, true));
            && t == s.(table := Pending(front) + kept, ring := [e.message] + s.ring)
            && EndsWith(t, Pending(front), kept, tag)
  {
    hide Next, Pending, Sorted, Clean, State.Valid;
    assert kept + [e] + [] == kept + [e] && kept + [] == kept;
    RequeueOne(s, front, kept, e, []);
    assert forall i :: 0 <= i < |kept| ==> kept[i] == (kept + [e])[i];
  }

  lemma FirstGoesBack(s: State, front: seq<Entry>, kept: seq<Entry>, e: Entry, tag: nat)
    requires EndsWith(s, front, [e] + kept, tag)
    ensures var t := Next(s, Refuse(e.tag, true));
            && t == s.(table := Pending(front) + kept, ring := [e.message] + s.ring)
            && EndsWith(t, Pending(front), kept, tag + 1)
  {
    hide Next, Pending, Sorted, Clean, State.Valid;
    assert [] + [e] + kept == [e] + kept && [] + kept == kept;
    RequeueOne(s, front, [], e, kept);
    assert forall i :: 0 <= i < |kept| ==> kept[i] == ([e] + kept)[i + 1];
  }

  lemma AfterCons(s: State, op: Op, ops: seq<Op>)
    ensures After(s, [op] + ops) == After(Next(s, op), ops)
  {
    AfterConcat(s, [op], ops);
    AfterSnoc(s, [], op);
    assert [] + [op] == [op];
  }

  lemma RefuseBackwardCons(tag: nat, k: nat)
    requires k > 0
    ensures RefuseBackward(tag, k) == [Refuse(tag + k - 1, true)] + RefuseBackward(tag, k - 1)
  {
  }

  lemma RefuseForwardCons(tag: nat, k: nat)
    requires k > 0
    ensures RefuseForward(tag, k) == [Refuse(tag, true)] + RefuseForward(tag + 1, k - 1)
  {
  }

  lemma MessagesConcat(a: seq<Entry>, b: seq<Entry>)
    ensures Messages(a + b) == Messages(a) + Messages(b)
    ensures |b| == 1 ==> Messages(b) == [b[0].message]
    ensures |a| == 1 ==> Messages(a) == [a[0].message]
  {
  }

  /** The queue when the deliveries are back in the ring as `back`. */
  function TakenBack(s: State, front: seq<Entry>, out: seq<Entry>, back: seq<Address>): State {
    s.(table := if out == [] then front else Pending(front), ring := back + s.ring)
  }

  /** Rejecting the deliveries, last one first, puts their messages back in the order of delivery. */
  lemma {:induction false} RefuseLastFirst(s: State, front: seq<Entry>, out: seq<Entry>, tag: nat)
    requires EndsWith(s, front, out, tag)
    ensures After(s, RefuseBackward(tag, |out|)) == TakenBack(s, front, out, Messages(out))
    decreases |out|
  {
    hide Next, After, Pending, EndsWith, RefuseBackward, Messages;
    EndTags(s, front, out, tag);
    if out == [] {
      AfterNone(s, RefuseBackward(tag, 0));
      assert TakenBack(s, front, out, Messages(out)) == s;
    } else {
      var n := |out| - 1;
      var e, kept := out[n], out[..n];
      assert out == kept + [e];
      LastGoesBack(s, front, kept, e, tag);
      RefuseLastFirst(Next(s, Refuse(e.tag, true)), Pending(front), kept, tag);
      PendingTwice(front);
      AfterCons(s, Refuse(e.tag, true), RefuseBackward(tag, n));
      RefuseBackwardCons(tag, n + 1);
      MessagesConcat(kept, [e]);
      Regroup(Messages(kept), [e.message], s.ring);
    }
  }

  /** Rejecting them in the order of delivery reverses them. */
  lemma {:induction false} RefuseFirstFirst(s: State, front: seq<Entry>, out: seq<Entry>, tag: nat)
    requires EndsWith(s, front, out, tag)
    ensures After(s, RefuseForward(tag, |out|)) == TakenBack(s, front, out, Reverse(Messages(out)))
    decreases |out|
  {
    hide Next, After, Pending, Reverse, EndsWith, RefuseForward, Messages;
    EndTags(s, front, out, tag);
    if out == [] {
      AfterNone(s, RefuseForward(tag, 0));
      ReverseMultiset(Messages(out));
      assert TakenBack(s, front, out, Reverse(Messages(out))) == s;
    } else {
      var e, kept := out[0], out[1..];
      assert out == [e] + kept;
      FirstGoesBack(s, front, kept, e, tag);
      RefuseFirstFirst(Next(s, Refuse(e.tag, true)), Pending(front), kept, tag + 1);
      PendingTwice(front);
      AfterCons(s, Refuse(e.tag, true), RefuseForward(tag + 1, |kept|));
      RefuseForwardCons(tag, |out|);
      MessagesConcat([e], kept);
      ReverseCons(e.message, Messages(kept));
      Regroup(Reverse(Messages(kept)), [e.message], s.ring);
    }
  }

  /** After some deliveries the table ends with them. */
  lemma DequeuesEnd(s: State, times: seq<int>)
    requires Orderly(s) && |times| <= |s.ring| && s.nextTag + |times| <= 0xFFFF_FFFF_FFFF_FFFF
    ensures var k := |times|;
            var out, t := Deliveries(s.ring[..k], s.nextTag, times), After(s, Dequeues(times));
            && EndsWith(t, s.table, out, s.nextTag)
            && Messages(out) == s.ring[..k]
            && t.ring == s.ring[k..]
  {
    DequeueMany(s, times);
    assert forall e :: e in s.table ==> e.tag < s.nextTag;
  }

  /**
   * Delivering messages and rejecting them, last one first, restores the ring.
   * The table is what it was before, without the entries that were marked; when
   * none was, it is what it was.
   */
  lemma RequeueUndoesDequeue(s: State, times: seq<int>)
    requires Orderly(s) && |times| <= |s.ring| && s.nextTag + |times| <= 0xFFFF_FFFF_FFFF_FFFF
    ensures var t := After(s, Dequeues(times) + RefuseBackward(s.nextTag, |times|));
            && t.ring == s.ring
            && t.table == (if times == [] then s.table else Pending(s.table))
            && (Clean(s.table) ==> t.table == s.table)
  {
    hide Next, After, EndsWith;
    var k := |times|;
    DequeuesEnd(s, times);
    RefuseLastFirst(After(s, Dequeues(times)), s.table, Deliveries(s.ring[..k], s.nextTag, times), s.nextTag);
    AfterConcat(s, Dequeues(times), RefuseBackward(s.nextTag, k));
    assert s.ring[..k] + s.ring[k..] == s.ring;
    if Clean(s.table) {
      PendingClean(s.table);
    }
  }

  /** In the order of delivery, the same happens to the table, and the messages come back reversed. */
  lemma RequeueInOrderReverses(s: State, times: seq<int>)
    requires Orderly(s) && |times| <= |s.ring| && s.nextTag + |times| <= 0xFFFF_FFFF_FFFF_FFFF
    ensures var t := After(s, Dequeues(times) + RefuseForward(s.nextTag, |times|));
            && t.ring == Reverse(s.ring[..|times|]) + s.ring[|times|..]
            && t.table == (if times == [] then s.table else Pending(s.table))
            && (Clean(s.table) ==> t.table == s.table)
  {
    hide Next, After, EndsWith;
    var k := |times|;
    DequeuesEnd(s, times);
    RefuseFirstFirst(After(s, Dequeues(times)), s.table, Deliveries(s.ring[..k], s.nextTag, times), s.nextTag);
    AfterConcat(s, Dequeues(times), RefuseForward(s.nextTag, k));
    if Clean(s.table) {
      PendingClean(s.table);
    }
  }

  /** Every run of fewer than 2^64 - 1 deliveries ends in an orderly state. */
  lemma RunsAreOrderly(capacity: nat, ops: seq<Op>)
    requires 0 < capacity && Books(Initial(capacity), ops).deliveries < 0xFFFF_FFFF_FFFF_FFFF
    ensures Orderly(After(Initial(capacity), ops))
  {
    AfterValid(Initial(capacity), ops);
    TagOrder(capacity, ops);
  }

  // ---------------------------------------------------------------- what is delivered after a sweep

  lemma {:induction false} DequeuesDeliver(s: State, times: seq<int>)
    requires s.Valid() && |times| <= |s.ring| && s.nextTag + |times| <= 0xFFFF_FFFF_FFFF_FFFF
    ensures AllDelivered(s, Dequeues(times)) == s.ring[..|times|]
  {
    hide Next;
    if times != [] {
      var n := |times| - 1;
      DequeuesDeliver(s, times[..n]);
      DequeueMany(s, times[..n]);
      assert Dequeues(times)[..n] == Dequeues(times[..n]);
      DeliversFirst(After(s, Dequeues(times[..n])), times[n]);
      assert s.ring[n..][..1] == [s.ring[n]] && s.ring[..n + 1] == s.ring[..n] + [s.ring[n]];
    }
  }

  lemma DeliversFirst(s: State, now: int)
    requires s.ring != []
    ensures DeliveredBy(s, Dequeue(now, true)) == s.ring[..1]
  {
  }

  lemma {:induction false} AllDeliveredCons(s: State, op: Op, ops: seq<Op>)
    ensures AllDelivered(s, [op] + ops) == DeliveredBy(s, op) + AllDelivered(Next(s, op), ops)
  {
    hide Next, DeliveredBy;
    if ops == [] {
      assert [op][..0] == [];
      AfterNone(s, []);
    } else {
      var n := |ops| - 1;
      AllDeliveredCons(s, op, ops[..n]);
      assert ([op] + ops)[..n + 1] == [op] + ops[..n];
      AfterCons(s, op, ops[..n]);
    }
  }

  /**
   * The dequeues after a sweep deliver the expired messages that found room, the
   * one expired last in the table first, and then what was in the ring before.
   */
  lemma SweepThenDequeues(s: State, now: int, timeout: int, times: seq<int>)
    requires s.Valid() && 0 < timeout && s.nextTag + |times| <= 0xFFFF_FFFF_FFFF_FFFF
    requires var expired := Overdue(s.table, now, timeout);
             |times| <= Min(|expired|, s.capacity - |s.ring|) + |s.ring|
    ensures var expired := Overdue(s.table, now, timeout);
            var back := Reverse(expired[..Min(|expired|, s.capacity - |s.ring|)]);
            AllDelivered(s, [Timeouts(now, timeout)] + Dequeues(times)) == (back + s.ring)[..|times|]
  {
    StepValid(s, Timeouts(now, timeout));
    AllDeliveredCons(s, Timeouts(now, timeout), Dequeues(times));
    DequeuesDeliver(Next(s, Timeouts(now, timeout)), times);
  }

  // ---------------------------------------------------------------- room for every requeue

  lemma {:induction false} KeptLength(table: seq<Entry>, now: int, timeout: int)
    ensures |Kept(table, now, timeout)| + |Overdue(table, now, timeout)| <= |table|
  {
    if table != [] {
      KeptLength(table[..|table| - 1], now, timeout);
    }
  }

  lemma {:induction false} PendingMarkLength(table: seq<Entry>, i: nat)
    requires i < |table|
    ensures |Pending(Mark(table, i))| < |table|
  {
    var n := |table| - 1;
    if i < n {
      PendingMarkLength(table[..n], i);
      assert Mark(table, i)[..n] == Mark(table[..n], i);
    }
  }

  /** Ring and table together fit into the ring. */
  predicate Roomy(s: State) {
    |s.ring| + |s.table| <= s.capacity
  }

  lemma StepRoomy(s: State, op: Op)
    requires s.Valid() && Roomy(s) && !op.Enqueue?
    ensures Roomy(Next(s, op))
    ensures op.Timeouts? || (op.Refuse? && op.requeue) ==> Step(s, op).released == []
  {
    match op
    case Dequeue(_, _) =>
    case Acknowledge(_) =>
    case Refuse(tag, _) =>
      if Target(s, op) < |s.table| {
        PendingMarkLength(s.table, Target(s, op));
      }
    case Timeouts(now, timeout) => KeptLength(s.table, now, timeout);
  }

  /** If ring and table together fit into the ring, no run of deliveries, acks, rejects and sweeps drops a message. */
  lemma {:induction false} NothingDropped(s: State, ops: seq<Op>)
    requires s.Valid() && Roomy(s)
    requires forall i :: 0 <= i < |ops| ==> !ops[i].Enqueue?
    ensures Books(s, ops).dropped == multiset{}
    ensures Roomy(After(s, ops))
  {
    if ops != [] {
      var n := |ops| - 1;
      NothingDropped(s, ops[..n]);
      AfterValid(s, ops[..n]);
      StepRoomy(After(s, ops[..n]), ops[n]);
    }
  }

  // ---------------------------------------------------------------- growth of the table

  function Power2(n: nat): (p: nat)
    ensures p > 0
  {
    if n == 0 then 1 else 2 * Power2(n - 1)
  }

  /** The largest number of entries the table has in a run. */
  function PeakEntries(s: State, ops: seq<Op>): (peak: nat)
    ensures peak >= |After(s, ops).table|
  {
    var here := |After(s, ops).table|;
    if ops == [] then here else Max(here, PeakEntries(s, ops[..|ops| - 1]))
  }

  /** How many entries the resizes of a run copy. */
  function CopiedEntries(s: State, ops: seq<Op>): nat {
    if ops == [] then 0 else
    var n := |ops| - 1;
    var before := After(s, ops[..n]);
    CopiedEntries(s, ops[..n]) + if Next(before, ops[n]).tableCapacity > before.tableCapacity then |before.table| else 0
  }

  /** One call doubles a full table that gets one more entry, and leaves the capacity alone otherwise. */
  lemma StepGrowth(s: State, op: Op)
    requires s.Valid()
    ensures var t := Next(s, op);
            t.tableCapacity == s.tableCapacity ||
            (t.tableCapacity == 2 * s.tableCapacity && |s.table| == s.tableCapacity && |t.table| == s.tableCapacity + 1)
  {
  }

  /** The capacity of the delivery table is always 100 * 2^n. */
  lemma {:induction false} TableCapacityDoubles(capacity: nat, ops: seq<Op>) returns (n: nat)
    requires 0 < capacity
    ensures After(Initial(capacity), ops).tableCapacity == 100 * Power2(n)
  {
    n := 0;
    if ops != [] {
      var before := After(Initial(capacity), ops[..|ops| - 1]);
      n := TableCapacityDoubles(capacity, ops[..|ops| - 1]);
      AfterValid(Initial(capacity), ops[..|ops| - 1]);
      StepGrowth(before, ops[|ops| - 1]);
      if Next(before, ops[|ops| - 1]).tableCapacity != before.tableCapacity {
        n := n + 1;
      }
    }
  }

  /** It stays below twice the peak, and the resizes copy capacity - 100 entries in all: linear in the peak load. */
  lemma {:induction false} TableGrowthBound(capacity: nat, ops: seq<Op>)
    requires 0 < capacity
    ensures var s := Initial(capacity);
            var tableCapacity := After(s, ops).tableCapacity;
            && (tableCapacity == 100 || tableCapacity <= 2 * (PeakEntries(s, ops) - 1))
            && CopiedEntries(s, ops) == tableCapacity - 100
  {
    if ops != [] {
      var s, n := Initial(capacity), |ops| - 1;
      var before := After(s, ops[..n]);
      TableGrowthBound(capacity, ops[..n]);
      AfterValid(s, ops[..n]);
      StepGrowth(before, ops[n]);
      assert After(s, ops) == Next(before, ops[n]);
    }
  }

  // ---------------------------------------------------------------- a message released twice

  /** The entry of a first delivery made at 0, still out or marked. */
  function First(a: Address, status: Status): Entry {
    Entry(a, 1, 0, status)
  }

  /** The entry of a second delivery made at 31. */
  function Second(c: Address): Entry {
    Entry(c, 2, 31, Delivered)
  }

  /** A queue of capacity 1 with such a table. */
  function Small(ring: seq<Address>, table: seq<Entry>): State {
    State(1, ring, table, 100, |table| + 1)
  }

  lemma SmallCalls(a: Address, c: Address)
    ensures Append(Initial(1), a) == Small([a], [])
    ensures Step(Small([a], []), Dequeue(0, true)) == Outcome(Small([], [First(a, Delivered)]), true, [])
    ensures Append(Small([], [First(a, Delivered)]), c) == Small([c], [First(a, Delivered)])
    ensures Step(Small([c], [First(a, Acknowledged)]), Dequeue(31, true)) ==
            Outcome(Small([], [First(a, Acknowledged), Second(c)]), true, [])
  {
    assert [a][1..] == [] && [c][1..] == [];
  }

  /** The sweep of the full queue releases the expired delivery but keeps its entry. */
  lemma SweepMarksOnly(a: Address, c: Address)
    ensures var s := Small([c], [First(a, Delivered)]);
            && StrandsMarks(s, Timeouts(31, 30))
            && Step(s, Timeouts(31, 30)) == Outcome(Small([c], [First(a, Acknowledged)]), false, [a])
  {
    var e := First(a, Delivered);
    assert e in [e];
    assert Overdue([e], 31, 30) == [a];
    assert MarkExpired([e], 31, 30) == [First(a, Acknowledged)];
  }

  /** A late ack settles the marked entry, and so does a late reject with requeue. */
  lemma SettlesFirst(a: Address, c: Address)
    ensures var s := Small([c], [First(a, Acknowledged)]);
            SettlesMarked(s, Acknowledge(1)) && Step(s, Acknowledge(1)) == Outcome(s.(table := []), true, [a])
    ensures var s := Small([], [First(a, Acknowledged), Second(c)]);
            SettlesMarked(s, Refuse(1, true)) && !s.Full()
            && Step(s, Refuse(1, true)) == Outcome(s.(ring := [a], table := [Second(c)]), true, [])
  {
    var e := First(a, Acknowledged);
    assert Find([e], 1) == 0 && Pending([e]) == [];
    assert Find([e, Second(c)], 1) == 0;
    assert [e, Second(c)][..1] == [e] && Pending([e, Second(c)]) == [Second(c)];
  }

  /** The queue fills up while a delivery is out, and is swept. */
  function SweptWhenFull(a: Address, c: Address): seq<Op> {
    [Enqueue(a), Dequeue(0, true), Enqueue(c), Timeouts(31, 30)]
  }

  lemma SweepOfFullQueue(a: Address, c: Address)
    ensures var s, ops := Initial(1), SweptWhenFull(a, c);
            && EverStrandsMarks(s, ops)
            && Step(After(s, ops[..3]), ops[3]).released == [a]
            && After(s, ops) == Small([c], [First(a, Acknowledged)])
  {
    hide Step, StrandsMarks, Small;
    var s, ops := Initial(1), SweptWhenFull(a, c);
    SmallCalls(a, c);
    SmallEnqueues(a, c);
    AfterSnoc(s, [], ops[0]);
    assert ops[..1] == [] + [ops[0]];
    AfterSnoc(s, ops[..1], ops[1]);
    assert ops[..2] == ops[..1] + [ops[1]];
    AfterSnoc(s, ops[..2], ops[2]);
    assert ops[..3] == ops[..2] + [ops[2]];
    AfterSnoc(s, ops[..3], ops[3]);
    assert ops == ops[..3] + [ops[3]];
    SweepMarksOnly(a, c);
  }

  lemma SmallEnqueues(a: Address, c: Address)
    ensures Next(Initial(1), Enqueue(a)) == Append(Initial(1), a)
    ensures var s := Small([], [First(a, Delivered)]); Next(s, Enqueue(c)) == Append(s, c)
  {
  }

  /** A capacity of one is enough: the late ack is answered with 1 and releases the message again. */
  lemma ReleasedTwice(a: Address, c: Address)
    ensures var s, ops := Initial(1), SweptWhenFull(a, c) + [Acknowledge(1)];
            && EverStrandsMarks(s, ops) && EverSettlesMarked(s, ops)
            && Step(After(s, ops[..3]), ops[3]).released == [a]
            && Step(After(s, ops[..4]), ops[4]) == Outcome(After(s, ops), true, [a])
  {
    hide Step, StrandsMarks, SettlesMarked, Small;
    var s, swept := Initial(1), SweptWhenFull(a, c);
    var ops := swept + [Acknowledge(1)];
    SweepOfFullQueue(a, c);
    SettlesFirst(a, c);
    assert ops[..4] == swept && ops[..3] == swept[..3];
    AfterSnoc(s, swept, Acknowledge(1));
  }

  /**
   * When the message in the ring has been delivered meanwhile, a late reject
   * with requeue puts the released message back into the ring.
   */
  lemma ReleasedMessageComesBack(a: Address, c: Address)
    ensures var s, ops := Initial(1), SweptWhenFull(a, c) + [Dequeue(31, true)] + [Refuse(1, true)];
            && Step(After(s, ops[..3]), ops[3]).released == [a]
            && SettlesMarked(After(s, ops[..5]), ops[5]) && !After(s, ops[..5]).Full()
            && Step(After(s, ops[..5]), ops[5]) == Outcome(After(s, ops), true, [])
            && After(s, ops).ring == [a]
  {
    hide Step, StrandsMarks, SettlesMarked, Small;
    var s, swept := Initial(1), SweptWhenFull(a, c);
    var five := swept + [Dequeue(31, true)];
    var ops := five + [Refuse(1, true)];
    SweepOfFullQueue(a, c);
    SmallCalls(a, c);
    SettlesFirst(a, c);
    assert ops[..5] == five && ops[..3] == swept[..3];
    AfterSnoc(s, swept, Dequeue(31, true));
    AfterSnoc(s, five, Refuse(1, true));
  }
}
