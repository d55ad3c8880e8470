/** The queue of `src/core/queue.c`: a circular array and a growable delivery table, updated in place. */
module Queues {
  import opened Sequences
  import opened Memory
  import opened QueueModel

  /** The slot `i` steps after `start` in a circular array of `n` slots. */
  function Slot(start: nat, i: nat, n: nat): (slot: nat)
    requires start < n && i <= n
    ensures slot < n
  {
    if start + i < n then start + i else start + i - n
  }

  /** The index arithmetic of the source. */
  lemma SlotIsModulo(start: nat, i: nat, n: nat)
    requires start < n && i <= n
    ensures Slot(start, i, n) == (start + i) % n
  {
    assert start + i >= n ==> start + i == n * 1 + (start + i - n);
  }

  /** `(start + i) % n`, kept apart so that no other proof meets the modulo. */
  method Wrap(start: nat, i: nat, n: nat) returns (slot: nat)
    requires start < n && i <= n
    ensures slot == Slot(start, i, n)
  {
    SlotIsModulo(start, i, n);
    slot := (start + i) % n;
  }

  /** A stretch of a circular array: `size` cells from `head` on, wrapping at the end. */
  function Stretch(cells: seq<Address>, head: nat, size: nat): (r: seq<Address>)
    requires head < |cells| && size <= |cells|
    ensures |r| == size
    ensures forall i :: 0 <= i < size ==> r[i] == cells[Slot(head, i, |cells|)]
  {
    seq(size, i requires 0 <= i < size => cells[Slot(head, i, |cells|)])
  }

  class Queue {
    const name: CString
    const heap: Heap
    const capacity: nat
    var messages: array<Address>
    var size: nat
    var head: nat
    var tail: nat
    var unacked: array<Entry>
    var unackedCount: nat
    var nextDeliveryTag: nat

    ghost predicate Valid()
      reads this
    {
      && 0 < capacity == messages.Length
      && size <= capacity
      && head < capacity
      && tail == Slot(head, size, capacity)
      && 0 < unacked.Length
      && unackedCount <= unacked.Length
    }

    /** The messages from head to tail: the ring read as a deque. */
    ghost function Ring(): (r: seq<Address>)
      requires Valid()
      reads this, messages
    {
      Stretch(messages[..], head, size)
    }

    ghost function Abs(): State
      requires Valid()
      reads this, messages, unacked
    {
      State(capacity, Ring(), unacked[..unackedCount], unacked.Length, nextDeliveryTag)
    }

    constructor Init(name: CString, capacity: nat, heap: Heap)
      requires 0 < capacity
      ensures Valid() && fresh(this) && fresh(messages) && fresh(unacked)
      ensures this.heap == heap && this.name == name
      ensures Abs() == Initial(capacity)
    {
      this.name := name;
      this.heap := heap;
      this.capacity := capacity;
      messages := new Address[capacity];
      size, head, tail := 0, 0, 0;
      unacked := new Entry[DEFAULT_UNACKED_CAPACITY];
      unackedCount := 0;
      nextDeliveryTag := 1;
    }

    /** The write at the tail and the advance of the tail. */
    method PushBack(m: Address)
      requires Valid() && size < capacity
      modifies `size, `tail, messages
      ensures Valid() && Abs() == Append(old(Abs()), m)
    {
      messages[tail] := m;
      tail := Wrap(tail, 1, capacity);
      size := size + 1;
      assert Ring() == old(Ring()) + [m];
    }

    /** The step of the head backwards and the write there: a requeue. */
    method PushFront(m: Address)
      requires Valid() && size < capacity
      modifies `size, `head, messages
      ensures Valid() && Abs() == old(Abs()).(ring := [m] + old(Abs()).ring)
    {
      head := Wrap(head, capacity - 1, capacity);
      messages[head] := m;
      size := size + 1;
      assert Ring() == [m] + old(Ring());
    }

    /** The step of the head forwards. The cell left behind keeps its message. */
    method PopFront() returns (m: Address)
      requires Valid() && 0 < size
      modifies `size, `head
      ensures Valid() && [m] + Abs().ring == old(Abs()).ring
      ensures m == messages[Slot(head, capacity - 1, capacity)]
      ensures head == Slot(old(head), 1, capacity) && size == old(size) - 1
    {
      m := messages[head];
      head := Wrap(head, 1, capacity);
      size := size - 1;
      assert [m] + Ring() == old(Ring());
    }

    /** The rollback of a delivery: the head steps back over the cell it left. */
    method UnpopFront()
      requires Valid() && size < capacity
      modifies `size, `head
      ensures Valid() && Abs().ring == [messages[Slot(old(head), capacity - 1, capacity)]] + old(Abs()).ring
      ensures head == Slot(old(head), capacity - 1, capacity) && size == old(size) + 1
    {
      head := Wrap(head, capacity - 1, capacity);
      size := size + 1;
      assert Ring() == [messages[head]] + old(Ring());
    }

    /** `queue_size`. */
    method Size() returns (n: nat)
      requires Valid()
      ensures n == |Abs().ring|
    {
      n := size;
    }

    /** `queue_try_enqueue`. */
    method TryEnqueue(m: Address) returns (ok: bool)
      requires Valid()
      modifies `size, `tail, messages
      ensures Valid()
      ensures var o := QueueModel.TryEnqueue(old(Abs()), m); Abs() == o.next && ok == o.done
    {
      if size == capacity {
        return false;
      }
      PushBack(m);
      return true;
    }

    /**
     * `add_to_unacked`. `now` is the clock, `reallocOk` whether the allocator
     * would grow the table. A failure changes nothing.
     */
    method AddToUnacked(m: Address, now: int, reallocOk: bool) returns (tag: Option<nat>)
      requires Valid()
      modifies `unacked, `unackedCount, `nextDeliveryTag, unacked
      ensures Valid() && (unacked == old(unacked) || fresh(unacked))
      ensures tag == if CanTrack(old(Abs()), reallocOk) then Some(old(nextDeliveryTag)) else None
      ensures Ring() == old(Ring())
      ensures tag.None? ==> Abs() == old(Abs())
      ensures tag.Some? ==> Abs() == old(Abs()).(
        table := old(Abs()).table + [Entry(m, old(nextDeliveryTag), now, Delivered)],
        tableCapacity := if old(unackedCount) >= old(unacked.Length) then old(unacked.Length) * 2
                         else old(unacked.Length),
        nextTag := (old(nextDeliveryTag) + 1) % TAG_MODULUS)
    {
      if unackedCount >= unacked.Length {
        if !reallocOk {
          return None;
        }
        var grown := new Entry[unacked.Length * 2];
        forall i | 0 <= i < unackedCount {
          grown[i] := unacked[i];
        }
        assert grown[..unackedCount] == unacked[..unackedCount];
        unacked := grown;
      }
      ghost var before := unacked[..unackedCount];
      unacked[unackedCount] := Entry(m, nextDeliveryTag, now, Delivered);
      tag := Some(nextDeliveryTag);
      nextDeliveryTag := (nextDeliveryTag + 1) % TAG_MODULUS;
      unackedCount := unackedCount + 1;
      assert unacked[..unackedCount] == before + [Entry(m, old(nextDeliveryTag), now, Delivered)];
    }

    /**
     * `queue_try_dequeue`. When the delivery cannot be tracked, the head steps
     * back and the queue is exactly what it was.
     */
    method TryDequeue(now: int, reallocOk: bool) returns (delivery: Option<(Address, nat)>)
      requires Valid()
      modifies this, unacked
      ensures Valid() && messages == old(messages) && (unacked == old(unacked) || fresh(unacked))
      ensures var o := QueueModel.TryDequeue(old(Abs()), now, reallocOk); Abs() == o.next && delivery.Some? == o.done
      ensures delivery.Some? ==> delivery.value == (old(Abs()).ring[0], old(nextDeliveryTag))
      ensures delivery.None? ==> head == old(head) && tail == old(tail)
    {
      if size == 0 {
        return None;
      }
      var m := PopFront();
      var tag := AddToUnacked(m, now, reallocOk);
      if tag.None? {
        UnpopFront();
        return None;
      }
      return Some((m, tag.value));
    }

    /** The search loop of `queue_ack` and `queue_reject`. */
    method Search(tag: nat) returns (i: nat)
      requires Valid()
      ensures i == Find(Abs().table, tag)
    {
      i := 0;
      while i < unackedCount && unacked[i].tag != tag
        invariant i <= unackedCount
        invariant IndexOf(Abs().table, HasTag(tag), 0) == IndexOf(Abs().table, HasTag(tag), i)
      {
        i := i + 1;
      }
    }

    /** The two-index loop that drops the marked entries in place. */
    method Compact()
      requires Valid()
      modifies `unackedCount, unacked
      ensures Valid() && Abs() == old(Abs()).(table := Pending(old(Abs()).table))
    {
      ghost var before := unacked[..unackedCount];
      var newCount := 0;
      for i := 0 to unackedCount
        invariant newCount <= i && unackedCount == |before|
        invariant unacked[..newCount] == Pending(before[..i])
        invariant forall j :: i <= j < unackedCount ==> unacked[j] == before[j]
      {
        assert before[..i + 1][..i] == before[..i];
        if unacked[i].status != Acknowledged {
          if i != newCount {
            unacked[newCount] := unacked[i];
          }
          newCount := newCount + 1;
        }
      }
      assert before[..unackedCount] == before;
      unackedCount := newCount;
    }

    /** `queue_ack`. */
    method Ack(tag: nat) returns (found: bool)
      requires Valid()
      modifies `unackedCount, unacked, heap
      ensures Valid()
      ensures var o := QueueModel.Ack(old(Abs()), tag);
              Abs() == o.next && found == o.done && heap.Value() == old(heap.Value()).FreeAll(o.released)
    {
      var i := Search(tag);
      if i == unackedCount {
        return false;
      }
      unacked[i] := unacked[i].(status := Acknowledged);
      assert unacked[..unackedCount] == Mark(old(Abs()).table, i);
      heap.Free(unacked[i].message);
      Compact();
      return true;
    }

    /** `queue_reject`. */
    method Reject(tag: nat, requeue: bool) returns (found: bool)
      requires Valid()
      modifies `unackedCount, `size, `head, messages, unacked, heap
      ensures Valid()
      ensures var o := QueueModel.Reject(old(Abs()), tag, requeue);
              Abs() == o.next && found == o.done && heap.Value() == old(heap.Value()).FreeAll(o.released)
    {
      var i := Search(tag);
      if i == unackedCount {
        return false;
      }
      var m := unacked[i].message;
      if !requeue {
        heap.Free(m);
      }
      unacked[i] := unacked[i].(status := Acknowledged);
      assert unacked[..unackedCount] == Mark(old(Abs()).table, i);
      Compact();
      if requeue {
        if size == capacity {
          heap.Free(m);
        } else {
          PushFront(m);
        }
      }
      return true;
    }

    /** What the sweep does with one expired entry: mark it, and requeue or release its message. */
    method Expire(i: nat) returns (requeued: bool)
      requires Valid() && i < unackedCount
      modifies `size, `head, messages, unacked, heap
      ensures Valid() && requeued == !old(Abs()).Full()
      ensures var m := old(unacked[i]).message;
              && Abs() == old(Abs()).(ring := if requeued then [m] + old(Abs()).ring else old(Abs()).ring,
                                      table := Mark(old(Abs()).table, i))
              && heap.Value() == if requeued then old(heap.Value()) else old(heap.Value()).Free(m)
    {
      var m := unacked[i].message;
      unacked[i] := unacked[i].(status := Acknowledged);
      assert unacked[..unackedCount] == Mark(old(Abs()).table, i);
      if size < capacity {
        PushFront(m);
        return true;
      }
      heap.Free(m);
      return false;
    }

    /** The loop of the sweep over the table. */
    method ExpireAll(now: int, timeout: int) returns (requeuedCount: nat)
      requires Valid()
      modifies `size, `head, messages, unacked, heap
      ensures Valid()
      ensures var p := SweepLoop(old(Abs()), now, timeout, old(unackedCount));
              && Abs() == p.state
              && requeuedCount == p.requeued
              && heap.Value() == old(heap.Value()).FreeAll(p.released)
    {
      ghost var was, memory := Abs(), heap.Value();
      ghost var p := SweepLoop(was, now, timeout, 0);
      requeuedCount := 0;
      for i := 0 to unackedCount
        invariant Valid() && unackedCount == |was.table|
        invariant p == SweepLoop(was, now, timeout, i)
        invariant Abs() == p.state && requeuedCount == p.requeued
        invariant heap.Value() == memory.FreeAll(p.released)
      {
        assert unacked[i] == p.state.table[i];
        p := SweepEntry(p, now, timeout, i);
        if unacked[i].status == Delivered && now - unacked[i].time > timeout {
          var requeued := Expire(i);
          if requeued {
            requeuedCount := requeuedCount + 1;
          }
        }
      }
    }

    /** `queue_process_timeouts`. */
    method ProcessTimeouts(now: int, timeout: int)
      requires Valid()
      modifies `unackedCount, `size, `head, messages, unacked, heap
      ensures Valid()
      ensures var o := Sweep(old(Abs()), now, timeout);
              Abs() == o.next && heap.Value() == old(heap.Value()).FreeAll(o.released)
    {
      if timeout <= 0 {
        return;
      }
      SweepLoopThenCompact(Abs(), now, timeout);
      var requeuedCount := ExpireAll(now, timeout);
      if requeuedCount > 0 {
        Compact();
      }
    }

    /** The loop of `queue_free` over the ring. */
    method ReleaseRing()
      requires Valid()
      modifies heap
      ensures heap.Value() == old(heap.Value()).FreeAll(Abs().ring)
    {
      ghost var memory, ring := heap.Value(), Ring();
      for i := 0 to size
        invariant heap.Value() == memory.FreeAll(ring[..i])
      {
        FreeAllNext(memory, ring, i);
        var index := Wrap(head, i, capacity);
        heap.Free(messages[index]);
      }
      assert ring[..size] == ring == Ring();
    }

    /** The loop of `queue_free` over the delivery table. */
    method ReleasePending()
      requires Valid()
      modifies heap
      ensures heap.Value() == old(heap.Value()).FreeAll(Messages(Pending(Abs().table)))
    {
      ghost var memory, table := heap.Value(), unacked[..unackedCount];
      for i := 0 to unackedCount
        invariant heap.Value() == memory.FreeAll(Messages(Pending(table[..i])))
      {
        FreePendingNext(memory, table, i);
        if unacked[i].status != Acknowledged {
          heap.Free(unacked[i].message);
        }
      }
      assert table[..unackedCount] == table == unacked[..unackedCount];
    }

    /** `queue_free`: releases what the queue still holds. */
    method Destroy()
      requires Valid()
      modifies heap
      ensures heap.Value() == old(heap.Value()).FreeAll(QueueModel.Destroy(Abs()))
    {
      ReleaseRing();
      ReleasePending();
    }
  }
}
