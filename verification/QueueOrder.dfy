/** Order: the delivery table by tags and times, what settling an entry leaves, and first in, first out. */
module QueueOrder {
  import opened Sequences
  import opened Memory
  import opened QueueModel
  import opened QueueRuns

  // ---------------------------------------------------------------- filters keep order

  predicate TagLess(a: Entry, b: Entry) {
    a.tag < b.tag
  }

  predicate NotLater(a: Entry, b: Entry) {
    a.time <= b.time
  }

  ghost predicate Sorted(table: seq<Entry>, before: (Entry, Entry) -> bool) {
    forall i, j :: 0 <= i < j < |table| ==> before(table[i], table[j])
  }

  lemma {:induction false} PendingSorted(table: seq<Entry>, before: (Entry, Entry) -> bool)
    requires Sorted(table, before)
    ensures Sorted(Pending(table), before)
  {
    if table != [] {
      var n := |table| - 1;
      PendingSorted(table[..n], before);
      forall e | e in Pending(table[..n])
        ensures before(e, table[n])
      {
        PendingMembers(table[..n], e);
      }
    }
  }

  // ---------------------------------------------------------------- tags

  /** Strictly increasing tags, all of them already handed out. */
  ghost predicate TagsOrdered(s: State) {
    Sorted(s.table, TagLess) && forall e :: e in s.table ==> e.tag < s.nextTag
  }

  lemma PendingTagsOrdered(s: State, table: seq<Entry>)
    requires TagsOrdered(s.(table := table))
    ensures TagsOrdered(s.(table := Pending(table)))
  {
    PendingSorted(table, TagLess);
    forall e | e in Pending(table)
      ensures e.tag < s.nextTag
    {
      PendingMembers(table, e);
    }
  }

  predicate Delivers(s: State, op: Op) {
    op.Dequeue? && Step(s, op).done
  }

  lemma StepTagsOrdered(s: State, op: Op)
    requires s.Valid() && TagsOrdered(s)
    requires Delivers(s, op) ==> s.nextTag + 1 < TAG_MODULUS
    ensures TagsOrdered(Next(s, op))
    ensures Next(s, op).nextTag == if Delivers(s, op) then s.nextTag + 1 else s.nextTag
  {
    match op
    case Enqueue(_) =>
    case Dequeue(_, _) =>
    case Acknowledge(_) => SettleTagsOrdered(s, Target(s, op));
    case Refuse(_, _) => SettleTagsOrdered(s, Target(s, op));
    case Timeouts(now, timeout) => SweepTagsOrdered(s, now, timeout);
  }

  lemma SweepTagsOrdered(s: State, now: int, timeout: int)
    requires s.Valid() && TagsOrdered(s)
    ensures TagsOrdered(Sweep(s, now, timeout).next)
  {
    var marked := MarkExpired(s.table, now, timeout);
    forall e | e in marked
      ensures e.tag < s.nextTag
    {
      var i :| 0 <= i < |marked| && marked[i] == e;
      assert s.table[i] in s.table;
    }
    PendingTagsOrdered(s, marked);
    PendingMarkExpired(s.table, now, timeout);
  }

  lemma SettleTagsOrdered(s: State, i: nat)
    requires TagsOrdered(s)
    ensures i < |s.table| ==> TagsOrdered(Settle(s, i))
  {
    if i < |s.table| {
      PendingTagsOrdered(s, Mark(s.table, i));
    }
  }

  /** In every run of fewer than 2^64 - 1 deliveries the tags count the deliveries and the table is sorted by them. */
  lemma {:induction false} TagOrder(capacity: nat, ops: seq<Op>)
    requires 0 < capacity
    ensures var s, deliveries := After(Initial(capacity), ops), Books(Initial(capacity), ops).deliveries;
            deliveries < 0xFFFF_FFFF_FFFF_FFFF ==> TagsOrdered(s) && s.nextTag == deliveries + 1
  {
    if ops != [] {
      var n := |ops| - 1;
      TagOrder(capacity, ops[..n]);
      AfterValid(Initial(capacity), ops[..n]);
      if Books(Initial(capacity), ops).deliveries < 0xFFFF_FFFF_FFFF_FFFF {
        StepTagsOrdered(After(Initial(capacity), ops[..n]), ops[n]);
      }
    }
  }

  /** The tags of the deliveries of a run, in order, as entered into the table. */
  function DeliveredTags(s: State, ops: seq<Op>): seq<nat> {
    if ops == [] then [] else
    var n := |ops| - 1;
    DeliveredTags(s, ops[..n]) + TagBy(After(s, ops[..n]), ops[n])
  }

  function TagBy(s: State, op: Op): seq<nat> {
    if Delivers(s, op) then
      assert |Next(s, op).table| == |s.table| + 1;
      [Next(s, op).table[|s.table|].tag]
    else []
  }

  lemma StepTag(s: State, op: Op)
    ensures TagBy(s, op) == if Delivers(s, op) then [s.nextTag] else []
    ensures Next(s, op).nextTag == if Delivers(s, op) then (s.nextTag + 1) % 0x1_0000_0000_0000_0000 else s.nextTag
  {
  }

  /** The tag of the n-th delivery. */
  function NthTag(n: nat): nat {
    n % 0x1_0000_0000_0000_0000
  }

  lemma NthTagNext(n: nat)
    ensures (NthTag(n) + 1) % 0x1_0000_0000_0000_0000 == NthTag(n + 1)
    ensures NthTag(1) == 1
  {
  }

  lemma NthTagSameIff(i: nat, j: nat)
    requires i <= j
    ensures NthTag(i) == NthTag(j) <==> (j - i) % 0x1_0000_0000_0000_0000 == 0
  {
  }

  lemma {:induction false} TagsAreNth(capacity: nat, ops: seq<Op>)
    ensures var tags, deliveries := DeliveredTags(Initial(capacity), ops), Books(Initial(capacity), ops).deliveries;
            && |tags| == deliveries
            && (forall i :: 0 <= i < |tags| ==> tags[i] == NthTag(i + 1))
            && After(Initial(capacity), ops).nextTag == NthTag(deliveries + 1)
  {
    hide Next, TagBy, Delivers, Book, NthTag;
    NthTagNext(0);
    if ops != [] {
      var n := |ops| - 1;
      var before, books := After(Initial(capacity), ops[..n]), Books(Initial(capacity), ops[..n]);
      TagsAreNth(capacity, ops[..n]);
      StepTag(before, ops[n]);
      BookDeliveries(books, before, ops[n]);
      NthTagNext(books.deliveries + 1);
    }
  }

  /** In every run whatever, the n-th delivery carries the tag n modulo 2^64. */
  lemma TagsCount(capacity: nat, ops: seq<Op>)
    ensures var tags, deliveries := DeliveredTags(Initial(capacity), ops), Books(Initial(capacity), ops).deliveries;
            && |tags| == deliveries
            && (forall i :: 0 <= i < |tags| ==> tags[i] == (i + 1) % 0x1_0000_0000_0000_0000)
            && After(Initial(capacity), ops).nextTag == (deliveries + 1) % 0x1_0000_0000_0000_0000
  {
    hide DeliveredTags, Books, After;
    TagsAreNth(capacity, ops);
  }

  lemma BookDeliveries(l: Ledger, s: State, op: Op)
    ensures Book(l, s, op).deliveries == l.deliveries + Bit(Delivers(s, op))
  {
  }

  /** Two deliveries of a run carry the same tag exactly when a multiple of 2^64 deliveries lies between them. */
  lemma SameTagIff(capacity: nat, ops: seq<Op>, i: nat, j: nat)
    requires i < j < |DeliveredTags(Initial(capacity), ops)|
    ensures DeliveredTags(Initial(capacity), ops)[i] == DeliveredTags(Initial(capacity), ops)[j] <==>
            (j - i) % 0x1_0000_0000_0000_0000 == 0
  {
    hide NthTag, DeliveredTags, Books, After;
    TagsAreNth(capacity, ops);
    NthTagSameIff(i + 1, j + 1);
  }

  /**
   * A dequeue succeeds exactly when there is a message and the table has a place
   * or can grow; when it fails nothing changes.
   */
  lemma DequeueIff(s: State, now: int, reallocOk: bool)
    ensures Step(s, Dequeue(now, reallocOk)).done <==> s.ring != [] && (|s.table| < s.tableCapacity || reallocOk)
    ensures !Step(s, Dequeue(now, reallocOk)).done ==> Next(s, Dequeue(now, reallocOk)) == s
    ensures Step(s, Dequeue(now, reallocOk)).done ==>
      var t := Next(s, Dequeue(now, reallocOk));
      && s.ring == [t.table[|s.table|].message] + t.ring
      && t.table[..|s.table|] == s.table
      && t.table[|s.table|].time == now && t.table[|s.table|].status == Delivered
  {
  }

  // ---------------------------------------------------------------- settling one delivery

  lemma FindTag(s: State, i: nat)
    requires Sorted(s.table, TagLess) && i < |s.table|
    ensures Find(s.table, s.table[i].tag) == i
  {
    var j := Find(s.table, s.table[i].tag);
    FindFirst(s.table, s.table[i].tag);
    assert j < i ==> TagLess(s.table[j], s.table[i]);
  }

  lemma {:induction false} PendingConcat(a: seq<Entry>, b: seq<Entry>)
    ensures Pending(a + b) == Pending(a) + Pending(b)
  {
    if b == [] {
      assert a + b == a;
    } else {
      var n := |b| - 1;
      PendingConcat(a, b[..n]);
      assert (a + b)[..|a| + n] == a + b[..n];
    }
  }

  lemma {:induction false} PendingClean(table: seq<Entry>)
    requires Clean(table)
    ensures Pending(table) == table
  {
    if table != [] {
      var n := |table| - 1;
      PendingClean(table[..n]);
      assert table == table[..n] + [table[n]];
    }
  }

  /** Compaction after one mark takes out that entry and those marked before, and nothing else. */
  lemma SettleRemoves(s: State, i: nat)
    requires i < |s.table|
    ensures Settle(s, i).table == Pending(s.table[..i]) + Pending(s.table[i + 1..])
    ensures Clean(s.table) ==> Settle(s, i).table == s.table[..i] + s.table[i + 1..]
  {
    var a, c, marked := s.table[..i], s.table[i + 1..], Mark(s.table, i);
    assert marked == a + [marked[i]] + c;
    PendingConcat(a + [marked[i]], c);
    PendingConcat(a, [marked[i]]);
    assert Pending([marked[i]]) == [];
    if Clean(s.table) {
      PendingClean(a);
      PendingClean(c);
    }
  }

  /** What settling entry `i` of a table in the order of its tags does, by ack and by reject. */
  lemma SettleAt(s: State, i: nat)
    requires Sorted(s.table, TagLess) && i < |s.table|
    ensures var tag, m, rest := s.table[i].tag, s.table[i].message, Pending(s.table[..i]) + Pending(s.table[i + 1..]);
            && Ack(s, tag) == Outcome(s.(table := rest), true, [m])
            && Reject(s, tag, false) == Outcome(s.(table := rest), true, [m])
            && Reject(s, tag, true) == (if s.Full() then Outcome(s.(table := rest), true, [m])
                                        else Outcome(s.(table := rest, ring := [m] + s.ring), true, []))
            && (Clean(s.table) ==> rest == s.table[..i] + s.table[i + 1..])
  {
    hide Find, Sorted, Pending;
    FindTag(s, i);
    SettleRemoves(s, i);
  }

  /**
   * `queue_ack` and `queue_reject` answer 1 exactly for a tag in the table; an
   * unknown tag changes nothing.
   */
  lemma FoundIff(s: State, tag: nat, requeue: bool)
    ensures var outstanding := exists i :: 0 <= i < |s.table| && s.table[i].tag == tag;
            && (Ack(s, tag).done <==> outstanding) && (Reject(s, tag, requeue).done <==> outstanding)
            && (!outstanding ==> Ack(s, tag) == Reject(s, tag, requeue) == Outcome(s, false, []))
  {
    FindFirst(s.table, tag);
  }

  // ---------------------------------------------------------------- delivery times

  /** The clock readings of the deliveries never go back. */
  ghost predicate ClockForward(ops: seq<Op>) {
    forall i, j :: 0 <= i < j < |ops| && ops[i].Dequeue? && ops[j].Dequeue? ==> ops[i].now <= ops[j].now
  }

  ghost predicate TimesUpTo(table: seq<Entry>, t: int) {
    forall e :: e in table ==> e.time <= t
  }

  lemma PendingTimes(table: seq<Entry>, t: int)
    requires Sorted(table, NotLater) && TimesUpTo(table, t)
    ensures Sorted(Pending(table), NotLater) && TimesUpTo(Pending(table), t)
  {
    PendingSorted(table, NotLater);
    forall e | e in Pending(table)
      ensures e.time <= t
    {
      PendingMembers(table, e);
    }
  }

  lemma SettleTimes(s: State, i: nat, t: int)
    requires Sorted(s.table, NotLater) && TimesUpTo(s.table, t)
    ensures i < |s.table| ==> Sorted(Settle(s, i).table, NotLater) && TimesUpTo(Settle(s, i).table, t)
  {
    if i < |s.table| {
      PendingTimes(Mark(s.table, i), t);
    }
  }

  lemma SweepTimes(s: State, now: int, timeout: int, t: int)
    requires s.Valid() && Sorted(s.table, NotLater) && TimesUpTo(s.table, t)
    ensures var table := Sweep(s, now, timeout).next.table; Sorted(table, NotLater) && TimesUpTo(table, t)
  {
    var marked := MarkExpired(s.table, now, timeout);
    forall e | e in marked
      ensures e.time <= t
    {
      var i :| 0 <= i < |marked| && marked[i] == e;
      assert s.table[i] in s.table;
    }
    PendingTimes(marked, t);
    PendingMarkExpired(s.table, now, timeout);
  }

  lemma StepTimes(s: State, op: Op, t: int)
    requires s.Valid() && Sorted(s.table, NotLater) && TimesUpTo(s.table, t)
    requires op.Dequeue? ==> t == op.now
    ensures var table := Next(s, op).table; Sorted(table, NotLater) && TimesUpTo(table, t)
  {
    match op
    case Enqueue(_) =>
    case Dequeue(_, _) =>
    case Acknowledge(_) => SettleTimes(s, Target(s, op), t);
    case Refuse(_, _) => SettleTimes(s, Target(s, op), t);
    case Timeouts(now, timeout) => SweepTimes(s, now, timeout, t);
  }

  lemma {:induction false} TimeOrder(capacity: nat, ops: seq<Op>, t: int)
    requires 0 < capacity && ClockForward(ops)
    requires forall i :: 0 <= i < |ops| && ops[i].Dequeue? ==> ops[i].now <= t
    ensures var table := After(Initial(capacity), ops).table; Sorted(table, NotLater) && TimesUpTo(table, t)
  {
    if ops != [] {
      var n := |ops| - 1;
      var u := if ops[n].Dequeue? then ops[n].now else t;
      TimeOrder(capacity, ops[..n], u);
      AfterValid(Initial(capacity), ops[..n]);
      StepTimes(After(Initial(capacity), ops[..n]), ops[n], u);
    }
  }

  /** How many entries at the front of the table are overdue. */
  function OverdueCount(table: seq<Entry>, now: int, timeout: int): (k: nat)
    ensures k <= |table|
    ensures forall i :: 0 <= i < k ==> now - table[i].time > timeout
    ensures k < |table| ==> now - table[k].time <= timeout
  {
    if table == [] then 0 else
    var n := |table| - 1;
    var k := OverdueCount(table[..n], now, timeout);
    if k == n && now - table[n].time > timeout then n + 1 else k
  }

  /** In a clean table in time order, the expired deliveries are exactly a prefix. */
  lemma {:induction false} OverduePrefix(table: seq<Entry>, now: int, timeout: int)
    requires Clean(table) && Sorted(table, NotLater)
    ensures Overdue(table, now, timeout) == Messages(table[..OverdueCount(table, now, timeout)])
  {
    if table != [] {
      var n := |table| - 1;
      OverduePrefix(table[..n], now, timeout);
      var front, last := table[..n], table[n];
      assert table == front + [last];
      OverdueCountSnoc(front, last, now, timeout);
      if IsExpired(last, now, timeout) {
        assert front[..n] == front && table[..n + 1] == table;
        OverdueAll(front, last, now, timeout);
      } else {
        OverdueSome(front, last, now, timeout);
        assert front[..OverdueCount(front, now, timeout)] == table[..OverdueCount(front, now, timeout)];
      }
    }
  }

  lemma OverdueAll(front: seq<Entry>, last: Entry, now: int, timeout: int)
    requires IsExpired(last, now, timeout) && Overdue(front, now, timeout) == Messages(front)
    ensures Overdue(front + [last], now, timeout) == Messages(front + [last])
  {
    assert (front + [last])[..|front|] == front;
  }

  lemma OverdueSome(front: seq<Entry>, last: Entry, now: int, timeout: int)
    requires !IsExpired(last, now, timeout)
    ensures Overdue(front + [last], now, timeout) == Overdue(front, now, timeout)
  {
    assert (front + [last])[..|front|] == front;
  }

  /** A compacting sweep leaves what comes after that prefix. */
  lemma {:induction false} KeptSuffix(table: seq<Entry>, now: int, timeout: int)
    requires Clean(table) && Sorted(table, NotLater)
    ensures Kept(table, now, timeout) == table[OverdueCount(table, now, timeout)..]
  {
    if table != [] {
      var n := |table| - 1;
      KeptSuffix(table[..n], now, timeout);
      assert table == table[..n] + [table[n]];
      KeptSuffixSnoc(table[..n], table[n], now, timeout);
    }
  }

  lemma KeptSuffixSnoc(front: seq<Entry>, last: Entry, now: int, timeout: int)
    requires Sorted(front + [last], NotLater) && last.status == Delivered
    requires Kept(front, now, timeout) == front[OverdueCount(front, now, timeout)..]
    ensures var table := front + [last];
            Kept(table, now, timeout) == table[OverdueCount(table, now, timeout)..]
  {
    var table, k := front + [last], OverdueCount(front, now, timeout);
    OverdueCountSnoc(front, last, now, timeout);
    assert table[..|front|] == front;
    if !IsExpired(last, now, timeout) {
      assert table[k..] == front[k..] + [last];
    }
  }

  lemma OverdueCountSnoc(front: seq<Entry>, last: Entry, now: int, timeout: int)
    requires Sorted(front + [last], NotLater)
    ensures OverdueCount(front + [last], now, timeout) ==
            if now - last.time > timeout then |front| + 1 else OverdueCount(front, now, timeout)
    ensures now - last.time > timeout ==> OverdueCount(front, now, timeout) == |front|
  {
    var table, k := front + [last], OverdueCount(front, now, timeout);
    assert table[..|front|] == front;
    assert k < |front| ==> NotLater(table[k], table[|front|]);
  }

  ghost function LastReading(ops: seq<Op>): (t: int)
    requires ClockForward(ops)
    ensures forall i :: 0 <= i < |ops| && ops[i].Dequeue? ==> ops[i].now <= t
  {
    if ops == [] then 0 else
    var n := |ops| - 1;
    if ops[n].Dequeue? then ops[n].now else LastReading(ops[..n])
  }

  /** Under a clock that does not go back, a sweep takes a prefix of the table of any clean run. */
  lemma SweepTakesPrefix(capacity: nat, ops: seq<Op>, now: int, timeout: int)
    requires 0 < capacity && ClockForward(ops) && !EverStrandsMarks(Initial(capacity), ops)
    ensures var table := After(Initial(capacity), ops).table;
            var k := OverdueCount(table, now, timeout);
            Overdue(table, now, timeout) == Messages(table[..k]) && Kept(table, now, timeout) == table[k..]
  {
    TimeOrder(capacity, ops, LastReading(ops));
    CleanRuns(Initial(capacity), ops);
    OverduePrefix(After(Initial(capacity), ops).table, now, timeout);
    KeptSuffix(After(Initial(capacity), ops).table, now, timeout);
  }

  // ---------------------------------------------------------------- first in, first out

  /** What a call delivers. */
  function DeliveredBy(s: State, op: Op): seq<Address> {
    if op.Dequeue? && Step(s, op).done then s.ring[..1] else []
  }

  /** What a call accepts. */
  function AcceptedBy(s: State, op: Op): seq<Address> {
    if op.Enqueue? && Step(s, op).done then [op.message] else []
  }

  /**
   * The call puts a message back: a reject with requeue of a known tag, or a
   * sweep with an expired delivery, and room in the ring.
   */
  predicate PutsBack(s: State, op: Op) {
    && !s.Full()
    && ((op.Refuse? && op.requeue && Target(s, op) < |s.table|)
        || (op.Timeouts? && 0 < op.timeout && Overdue(s.table, op.now, op.timeout) != []))
  }

  /** The messages a run delivers, in order. */
  function AllDelivered(s: State, ops: seq<Op>): seq<Address> {
    if ops == [] then [] else
    var n := |ops| - 1;
    AllDelivered(s, ops[..n]) + DeliveredBy(After(s, ops[..n]), ops[n])
  }

  /** The messages a run accepts, in order. */
  function AllAccepted(s: State, ops: seq<Op>): seq<Address> {
    if ops == [] then [] else
    var n := |ops| - 1;
    AllAccepted(s, ops[..n]) + AcceptedBy(After(s, ops[..n]), ops[n])
  }

  predicate EverPutsBack(s: State, ops: seq<Op>) {
    ops != [] &&
    var n := |ops| - 1;
    EverPutsBack(s, ops[..n]) || PutsBack(After(s, ops[..n]), ops[n])
  }

  lemma StepInOrder(s: State, op: Op)
    requires s.Valid()
    ensures !PutsBack(s, op) ==> DeliveredBy(s, op) + Next(s, op).ring == s.ring + AcceptedBy(s, op)
    ensures |DeliveredBy(s, op) + Next(s, op).ring| >= |s.ring + AcceptedBy(s, op)| + Bit(PutsBack(s, op))
  {
    match op
    case Dequeue(_, _) =>
      if Step(s, op).done {
        assert s.ring == s.ring[..1] + s.ring[1..];
      }
    case _ =>
  }

  lemma {:induction false} RunInOrder(s: State, ops: seq<Op>)
    requires s.Valid()
    ensures !EverPutsBack(s, ops) ==> AllDelivered(s, ops) + After(s, ops).ring == s.ring + AllAccepted(s, ops)
    ensures |AllDelivered(s, ops)| + |After(s, ops).ring| >=
            |s.ring| + |AllAccepted(s, ops)| + Bit(EverPutsBack(s, ops))
  {
    hide Next, PutsBack, DeliveredBy, AcceptedBy;
    if ops != [] {
      var n := |ops| - 1;
      var before := After(s, ops[..n]);
      RunInOrder(s, ops[..n]);
      AfterValid(s, ops[..n]);
      StepInOrder(before, ops[n]);
      Regroup(AllDelivered(s, ops[..n]), DeliveredBy(before, ops[n]), Next(before, ops[n]).ring);
      Regroup(AllDelivered(s, ops[..n]), before.ring, AcceptedBy(before, ops[n]));
      Regroup(s.ring, AllAccepted(s, ops[..n]), AcceptedBy(before, ops[n]));
    }
  }

  /**
   * First in, first out: what a run delivers, followed by what is left in the
   * ring, is the first ring followed by what it accepts, exactly when no call
   * puts a message back.
   */
  lemma FirstInFirstOutIff(s: State, ops: seq<Op>)
    requires s.Valid()
    ensures AllDelivered(s, ops) + After(s, ops).ring == s.ring + AllAccepted(s, ops) <==> !EverPutsBack(s, ops)
  {
    RunInOrder(s, ops);
    assert |AllDelivered(s, ops) + After(s, ops).ring| == |AllDelivered(s, ops)| + |After(s, ops).ring|;
    assert |s.ring + AllAccepted(s, ops)| == |s.ring| + |AllAccepted(s, ops)|;
  }
}
