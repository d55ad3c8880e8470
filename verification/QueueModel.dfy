/**
 * What the operations of `src/core/queue.c` do, as functions on values: the
 * ring buffer is the sequence of its messages from head to tail, the delivery
 * table the sequence of its entries. The class in Queue.dfy is proved to
 * compute these functions.
 */
module QueueModel {
  import opened Sequences
  import opened Memory

  const DEFAULT_UNACKED_CAPACITY: nat := 100
  const TAG_MODULUS: nat := 0x1_0000_0000_0000_0000

  datatype Status = Ready | Delivered | Acknowledged

  datatype Entry = Entry(message: Address, tag: nat, time: int, status: Status)

  datatype State = State(
    capacity: nat,
    ring: seq<Address>,
    table: seq<Entry>,
    tableCapacity: nat,
    nextTag: nat)
  {
    predicate Full() {
      |ring| == capacity
    }

    predicate Valid() {
      && 0 < capacity
      && |ring| <= capacity
      && |table| <= tableCapacity
      && 0 < tableCapacity
    }
  }

  function Initial(capacity: nat): State {
    State(capacity, [], [], DEFAULT_UNACKED_CAPACITY, 1)
  }

  /** The messages of some entries, in table order. */
  function Messages(table: seq<Entry>): (ms: seq<Address>)
    ensures |ms| == |table|
    ensures forall i :: 0 <= i < |table| ==> ms[i] == table[i].message
  {
    seq(|table|, i requires 0 <= i < |table| => table[i].message)
  }

  /** What compaction keeps: the entries not marked ACKNOWLEDGED, in order. */
  function Pending(table: seq<Entry>): (kept: seq<Entry>)
    ensures |kept| <= |table|
  {
    if table == [] then [] else
    var rest, last := Pending(table[..|table| - 1]), table[|table| - 1];
    if last.status != Acknowledged then rest + [last] else rest
  }

  /** Every entry is an outstanding delivery; none is waiting to be compacted away. */
  predicate Clean(table: seq<Entry>) {
    forall e :: e in table ==> e.status == Delivered
  }

  function HasTag(tag: nat): Entry -> bool {
    (e: Entry) => e.tag == tag
  }

  /** The first position whose tag is `tag`, or the length of the table. */
  function Find(table: seq<Entry>, tag: nat): (i: nat)
    ensures i <= |table|
  {
    IndexOf(table, HasTag(tag), 0)
  }

  lemma FindFirst(table: seq<Entry>, tag: nat)
    ensures var i := Find(table, tag);
            && (i < |table| ==> table[i].tag == tag)
            && forall j :: 0 <= j < i ==> table[j].tag != tag
  {
    IndexOfFirst(table, HasTag(tag), 0);
    assert forall j :: 0 <= j < Find(table, tag) ==> !HasTag(tag)(table[j]);
  }

  function Mark(table: seq<Entry>, i: nat): (marked: seq<Entry>)
    requires i < |table|
  {
    table[i := table[i].(status := Acknowledged)]
  }

  predicate IsExpired(e: Entry, now: int, timeout: int) {
    e.status == Delivered && now - e.time > timeout
  }

  /** The entries a compacting sweep leaves: neither expired nor marked, in table order. */
  function Kept(table: seq<Entry>, now: int, timeout: int): (kept: seq<Entry>)
    ensures |kept| <= |table|
  {
    if table == [] then [] else
    var rest, last := Kept(table[..|table| - 1], now, timeout), table[|table| - 1];
    if !IsExpired(last, now, timeout) && last.status != Acknowledged then rest + [last] else rest
  }

  function MarkExpired(table: seq<Entry>, now: int, timeout: int): (marked: seq<Entry>)
    ensures |marked| == |table|
    ensures forall i :: 0 <= i < |table| ==>
      marked[i] == if IsExpired(table[i], now, timeout) then table[i].(status := Acknowledged) else table[i]
  {
    seq(|table|, i requires 0 <= i < |table| =>
      if IsExpired(table[i], now, timeout) then table[i].(status := Acknowledged) else table[i])
  }

  /** The two-pass form of the source (mark, then compact) is the one-pass filter. */
  lemma {:induction false} PendingMarkExpired(table: seq<Entry>, now: int, timeout: int)
    ensures Pending(MarkExpired(table, now, timeout)) == Kept(table, now, timeout)
  {
    if table != [] {
      var n := |table| - 1;
      PendingMarkExpired(table[..n], now, timeout);
      assert MarkExpired(table, now, timeout)[..n] == MarkExpired(table[..n], now, timeout);
    }
  }

  /** A state after a call, what the call answered, and the messages it released, in order. */
  datatype Outcome = Outcome(next: State, done: bool, released: seq<Address>)

  function Append(s: State, m: Address): State {
    s.(ring := s.ring + [m])
  }

  /** `queue_try_enqueue`, and `queue_enqueue` once there is room. */
  function TryEnqueue(s: State, m: Address): Outcome {
    if s.Full() then Outcome(s, false, []) else Outcome(Append(s, m), true, [])
  }

  /** Delivery needs a larger table exactly when the table is full. */
  predicate CanTrack(s: State, reallocOk: bool) {
    |s.table| < s.tableCapacity || reallocOk
  }

  function Deliver(s: State, now: int): State
    requires s.ring != []
  {
    s.(ring := s.ring[1..],
       table := s.table + [Entry(s.ring[0], s.nextTag, now, Delivered)],
       tableCapacity := if |s.table| >= s.tableCapacity then s.tableCapacity * 2 else s.tableCapacity,
       nextTag := (s.nextTag + 1) % TAG_MODULUS)
  }

  /** `queue_try_dequeue`, and `queue_dequeue` once there is a message. */
  function TryDequeue(s: State, now: int, reallocOk: bool): Outcome {
    if s.ring == [] || !CanTrack(s, reallocOk) then Outcome(s, false, [])
    else Outcome(Deliver(s, now), true, [])
  }

  /** The table without the entry at `i` and without the entries marked before. */
  function Settle(s: State, i: nat): State
    requires i < |s.table|
  {
    s.(table := Pending(Mark(s.table, i)))
  }

  /** `queue_ack`. */
  function Ack(s: State, tag: nat): Outcome {
    var i := Find(s.table, tag);
    if i == |s.table| then Outcome(s, false, [])
    else Outcome(Settle(s, i), true, [s.table[i].message])
  }

  /** `queue_reject`. */
  function Reject(s: State, tag: nat, requeue: bool): Outcome {
    var i := Find(s.table, tag);
    if i == |s.table| then Outcome(s, false, [])
    else
      var m := s.table[i].message;
      if requeue && !s.Full() then Outcome(Settle(s, i).(ring := [m] + s.ring), true, [])
      else Outcome(Settle(s, i), true, [m])
  }

  /** The ring after a sweep took back `taken`, how many it put back, and what it released. */
  datatype Returned = Returned(ring: seq<Address>, requeued: nat, released: seq<Address>)

  function PutBack(s: State, taken: seq<Address>): Returned {
    var k := if |s.ring| < s.capacity then Min(|taken|, s.capacity - |s.ring|) else 0;
    Returned(Reverse(taken[..k]) + s.ring, k, taken[k..])
  }

  /** The messages a sweep takes back, in table order. */
  function Overdue(table: seq<Entry>, now: int, timeout: int): (taken: seq<Address>)
    ensures |taken| <= |table|
  {
    if table == [] then [] else
    var rest, last := Overdue(table[..|table| - 1], now, timeout), table[|table| - 1];
    if IsExpired(last, now, timeout) then rest + [last.message] else rest
  }

  /**
   * `queue_process_timeouts`: the first expired messages are put back at the
   * head while there is room, the others are released. The table is compacted
   * only when at least one message was put back.
   */
  function Sweep(s: State, now: int, timeout: int): Outcome {
    if timeout <= 0 then Outcome(s, false, [])
    else
      var r := PutBack(s, Overdue(s.table, now, timeout));
      Outcome(
        s.(ring := r.ring,
           table := if r.requeued > 0 then Kept(s.table, now, timeout) else MarkExpired(s.table, now, timeout)),
        r.requeued > 0,
        r.released)
  }

  /** A sweep on the way: the state, how many messages it put back and which it released. */
  datatype Progress = Progress(state: State, requeued: nat, released: seq<Address>)

  /** The body of the sweep loop at entry `i`. */
  function SweepEntry(p: Progress, now: int, timeout: int, i: nat): (p': Progress)
    requires i < |p.state.table|
    ensures |p'.state.table| == |p.state.table|
  {
    var e, marked := p.state.table[i], p.state.(table := Mark(p.state.table, i));
    if !IsExpired(e, now, timeout) then p
    else if marked.Full() then Progress(marked, p.requeued, p.released + [e.message])
    else Progress(marked.(ring := [e.message] + marked.ring), p.requeued + 1, p.released)
  }

  /** The sweep loop of the source after its first `n` entries, before any compaction. */
  function SweepLoop(s: State, now: int, timeout: int, n: nat): (p: Progress)
    requires n <= |s.table|
    ensures |p.state.table| == |s.table|
  {
    if n == 0 then Progress(s, 0, []) else SweepEntry(SweepLoop(s, now, timeout, n - 1), now, timeout, n - 1)
  }

  /** Marks on the first `n` entries only. */
  function MarkedUpTo(table: seq<Entry>, now: int, timeout: int, n: nat): (marked: seq<Entry>)
    requires n <= |table|
    ensures |marked| == |table|
  {
    MarkExpired(table[..n], now, timeout) + table[n..]
  }

  lemma MarkedUpToNext(table: seq<Entry>, now: int, timeout: int, n: nat)
    requires n < |table|
    ensures var before := MarkedUpTo(table, now, timeout, n);
            && before[n] == table[n]
            && MarkedUpTo(table, now, timeout, n + 1) ==
               if IsExpired(table[n], now, timeout) then Mark(before, n) else before
  {
  }

  lemma OverdueNext(table: seq<Entry>, now: int, timeout: int, n: nat)
    requires n < |table|
    ensures var taken := Overdue(table[..n], now, timeout);
            Overdue(table[..n + 1], now, timeout) ==
            if IsExpired(table[n], now, timeout) then taken + [table[n].message] else taken
  {
    assert table[..n + 1][..n] == table[..n];
  }

  /** What the loop has done after `n` entries, in closed form. */
  function SweptUpTo(s: State, now: int, timeout: int, n: nat): Progress
    requires n <= |s.table|
  {
    var r := PutBack(s, Overdue(s.table[..n], now, timeout));
    Progress(s.(ring := r.ring, table := MarkedUpTo(s.table, now, timeout, n)), r.requeued, r.released)
  }

  lemma SweptUpToStart(s: State, now: int, timeout: int)
    ensures SweptUpTo(s, now, timeout, 0) == Progress(s, 0, [])
  {
    assert s.table[..0] == [] && MarkedUpTo(s.table, now, timeout, 0) == s.table;
  }

  lemma SweptUpToNext(s: State, now: int, timeout: int, n: nat)
    requires |s.ring| <= s.capacity && n < |s.table|
    ensures SweptUpTo(s, now, timeout, n + 1) == SweepEntry(SweptUpTo(s, now, timeout, n), now, timeout, n)
  {
    MarkedUpToNext(s.table, now, timeout, n);
    OverdueNext(s.table, now, timeout, n);
    PutBackSnoc(s, Overdue(s.table[..n], now, timeout), s.table[n].message);
  }

  /** The loop computes the closed form: prefix by prefix, the same ring, marks and releases. */
  lemma {:induction false} SweepLoopIsPutBack(s: State, now: int, timeout: int, n: nat)
    requires |s.ring| <= s.capacity && n <= |s.table|
    ensures SweepLoop(s, now, timeout, n) == SweptUpTo(s, now, timeout, n)
  {
    if n == 0 {
      SweptUpToStart(s, now, timeout);
    } else {
      SweepLoopIsPutBack(s, now, timeout, n - 1);
      SweptUpToNext(s, now, timeout, n - 1);
    }
  }

  /** Marking first and compacting afterwards is the sweep. */
  lemma SweepLoopThenCompact(s: State, now: int, timeout: int)
    requires |s.ring| <= s.capacity && 0 < timeout
    ensures var p := SweepLoop(s, now, timeout, |s.table|);
            Sweep(s, now, timeout) ==
            Outcome(if p.requeued > 0 then p.state.(table := Pending(p.state.table)) else p.state,
                    p.requeued > 0, p.released)
  {
    SweepLoopIsPutBack(s, now, timeout, |s.table|);
    PendingMarkExpired(s.table, now, timeout);
    assert s.table[..|s.table|] == s.table;
    assert MarkedUpTo(s.table, now, timeout, |s.table|) == MarkExpired(s.table, now, timeout);
  }

  lemma PutBackSnoc(s: State, taken: seq<Address>, m: Address)
    requires |s.ring| <= s.capacity
    ensures var r := PutBack(s, taken);
            PutBack(s, taken + [m]) ==
            if |r.ring| == s.capacity then Returned(r.ring, r.requeued, r.released + [m])
            else Returned([m] + r.ring, r.requeued + 1, r.released)
  {
    var k := PutBack(s, taken).requeued;
    if k < s.capacity - |s.ring| {
      assert taken[..k] == taken && (taken + [m])[..k + 1] == taken + [m];
      ReverseSnoc(taken, m);
    } else {
      assert (taken + [m])[..k] == taken[..k] && (taken + [m])[k..] == taken[k..] + [m];
    }
  }

  /** `queue_free`: what the destruction of the queue releases. */
  function Destroy(s: State): seq<Address> {
    s.ring + Messages(Pending(s.table))
  }

  lemma FreeAllNext(memory: Mem, ring: seq<Address>, i: nat)
    requires i < |ring|
    ensures memory.FreeAll(ring[..i + 1]) == memory.FreeAll(ring[..i]).Free(ring[i])
  {
    assert ring[..i + 1] == ring[..i] + [ring[i]];
  }

  lemma FreePendingNext(memory: Mem, table: seq<Entry>, i: nat)
    requires i < |table|
    ensures var released := memory.FreeAll(Messages(Pending(table[..i])));
            memory.FreeAll(Messages(Pending(table[..i + 1]))) ==
            if table[i].status != Acknowledged then released.Free(table[i].message) else released
  {
    assert table[..i + 1][..i] == table[..i];
    if table[i].status != Acknowledged {
      assert Messages(Pending(table[..i + 1])) == Messages(Pending(table[..i])) + [table[i].message];
    }
  }
}
