/** Messages and the C heap they live on (`src/core/message.c`). */
module Memory {

  type Byte = b: int | 0 <= b < 0x100
  type UInt32 = n: int | 0 <= n < 0x1_0000_0000
  type UInt64 = n: int | 0 <= n < 0x1_0000_0000_0000_0000

  /** A character of a C string: one byte, never the terminating NUL. */
  type CChar = c: char | 0 < c as int < 0x100 witness 'a'
  type CString = seq<CChar>

  datatype Message = Message(
    exchange: CString,
    routingKey: CString,
    body: seq<Byte>,
    priority: UInt32,
    expiration: UInt64,
    persistent: Byte)

  /** A pointer to a message: the position of its block in allocation order. */
  type Address = nat

  /**
   * The heap as a value. `blocks[a]` is what was stored at `a`, kept after the
   * release; `frees[a]` counts the calls of `message_free` on `a`, so that a
   * second release is visible instead of forbidden.
   */
  datatype Mem = Mem(blocks: seq<Message>, frees: multiset<Address>) {

    predicate Live(a: Address) {
      a < |blocks| && a !in frees
    }

    function Alloc(m: Message): Mem {
      Mem(blocks + [m], frees)
    }

    function Free(a: Address): Mem {
      Mem(blocks, frees + multiset{a})
    }

    function FreeAll(addresses: seq<Address>): Mem {
      Mem(blocks, frees + multiset(addresses))
    }
  }

  class Heap {
    var blocks: seq<Message>
    var frees: multiset<Address>

    constructor ()
      ensures Value() == Mem([], multiset{})
    {
      blocks := [];
      frees := multiset{};
    }

    function Value(): Mem
      reads this
    {
      Mem(blocks, frees)
    }

    /** `message_create`: a new block with default properties. */
    method Create(exchange: CString, routingKey: CString, body: seq<Byte>) returns (a: Address)
      modifies this
      ensures a == |old(blocks)| && !old(Value()).Live(a)
      ensures Value() == old(Value()).Alloc(Message(exchange, routingKey, body, 0, 0, 0))
    {
      a := |blocks|;
      blocks := blocks + [Message(exchange, routingKey, body, 0, 0, 0)];
    }

    /** `message_clone`: a new block equal to the original in every field; nothing else changes. */
    method Clone(original: Address) returns (a: Address)
      requires original < |blocks|
      modifies this
      ensures a == |old(blocks)|
      ensures Value() == old(Value()).Alloc(old(blocks)[original])
    {
      var m := blocks[original];
      a := Create(m.exchange, m.routingKey, m.body);
      blocks := blocks[a := blocks[a].(priority := m.priority)];
      blocks := blocks[a := blocks[a].(expiration := m.expiration)];
      blocks := blocks[a := blocks[a].(persistent := m.persistent)];
    }

    /** `message_free`. */
    method Free(a: Address)
      modifies this
      ensures Value() == old(Value()).Free(a)
    {
      frees := frees + multiset{a};
    }
  }
}
