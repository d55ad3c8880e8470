/** `send_message_data` and `receive_message_data` of `src/core/connection.c`, step by step on a stream. */
module Connection {
  import opened Sequences
  import opened Memory
  import opened Wire

  /** `bytes` were sent as far as the connection took them. */
  ghost predicate Transmitted(bytes: seq<Byte>, before: seq<Byte>, room: nat, after: seq<Byte>, left: nat, ok: bool) {
    var n := Min(|bytes|, room);
    ok == (|bytes| <= room) && after == before + bytes[..n] && left == room - n
  }

  /** Two transmissions in a row are one of both parts. */
  lemma Then(a: seq<Byte>, b: seq<Byte>, s0: seq<Byte>, r0: nat, s1: seq<Byte>, r1: nat, s2: seq<Byte>,
        r2: nat, ok: bool)
    requires Transmitted(a, s0, r0, s1, r1, true) && Transmitted(b, s1, r1, s2, r2, ok)
    ensures Transmitted(a + b, s0, r0, s2, r2, ok)
  {
    var n := Min(|b|, r1);
    assert a[..|a|] == a;
    assert (s0 + a) + b[..n] == s0 + (a + b)[..|a| + n];
  }

  /** A transmission that broke off is one of anything longer. */
  lemma Short(a: seq<Byte>, b: seq<Byte>, s0: seq<Byte>, r0: nat, s1: seq<Byte>, r1: nat)
    requires Transmitted(a, s0, r0, s1, r1, false)
    ensures Transmitted(a + b, s0, r0, s1, r1, false)
  {
    assert a[..r0] == (a + b)[..r0];
  }

  /** The parts of the encoder, in the order it sends them. */
  lemma EncodeInOrder(order: ByteOrder, m: Message)
    ensures Number(order, MESSAGE_MAGIC, 4) + EncodeText(order, m.exchange) + EncodeText(order, m.routingKey)
            + EncodeBody(order, m.body) + EncodeProperties(order, m) == Encode(order, m)
  {
    var a, b, c := Number(order, MESSAGE_MAGIC, 4), EncodeText(order, m.exchange), EncodeText(order, m.routingKey);
    var d, e := EncodeBody(order, m.body), EncodeProperties(order, m);
    Regroup(a + b + c, d, e);
    Regroup(a + b, c, d + e);
    Regroup(a, b, c + (d + e));
  }

  /** What went out on a connection, and how much more it takes before it fails. */
  datatype Link = Link(outgoing: seq<Byte>, room: nat)

  /** A connection after one `send_message_data`. */
  function AfterSend(order: ByteOrder, l: Link, m: Message): Link {
    var n := Min(|Encode(order, m)|, l.room);
    Link(l.outgoing + Encode(order, m)[..n], l.room - n)
  }

  /**
   * A connection after a call for each message, in order; a call that fails does
   * not keep the next one from being made.
   */
  function AfterSends(order: ByteOrder, l: Link, ms: seq<Message>): Link {
    if ms == [] then l else AfterSend(order, AfterSends(order, l, ms[..|ms| - 1]), ms[|ms| - 1])
  }

  /** Together they send the encodings one after the other, as far as the connection goes. */
  lemma {:induction false} SendsAreStream(order: ByteOrder, l: Link, ms: seq<Message>)
    ensures var bytes := EncodeAll(order, ms);
            var n := Min(|bytes|, l.room);
            AfterSends(order, l, ms) == Link(l.outgoing + bytes[..n], l.room - n)
  {
    hide Encode;
    if ms == [] {
      assert l.outgoing + [] == l.outgoing;
    } else {
      var k := |ms| - 1;
      SendsAreStream(order, l, ms[..k]);
      EncodeAllSnoc(order, ms[..k], ms[k]);
      assert ms == ms[..k] + [ms[k]];
      SendAfter(order, l, EncodeAll(order, ms[..k]), ms[k]);
    }
  }

  lemma SendAfter(order: ByteOrder, l: Link, bytes: seq<Byte>, m: Message)
    ensures var n := Min(|bytes|, l.room);
            var all := bytes + Encode(order, m);
            var n' := Min(|all|, l.room);
            AfterSend(order, Link(l.outgoing + bytes[..n], l.room - n), m) == Link(l.outgoing + all[..n'], l.room - n')
  {
    hide Encode;
    var n, all := Min(|bytes|, l.room), bytes + Encode(order, m);
    var k := Min(|Encode(order, m)|, l.room - n);
    assert bytes[..n] + Encode(order, m)[..k] == all[..n + k];
    Regroup(l.outgoing, bytes[..n], Encode(order, m)[..k]);
  }

  /**
   * A connected socket. `incoming` is what the peer sent and this end has not
   * read; `outgoing` what this end sent; `room` how much more the connection
   * takes before it fails. Calls transfer full lengths as long as they can.
   */
  class Socket {
    const order: ByteOrder
    var incoming: seq<Byte>
    var outgoing: seq<Byte>
    var room: nat

    constructor (order: ByteOrder, incoming: seq<Byte>, room: nat)
      ensures this.order == order && this.incoming == incoming && outgoing == [] && this.room == room
    {
      this.order := order;
      this.incoming := incoming;
      outgoing := [];
      this.room := room;
    }

    /** `send`: how many bytes went out. */
    method Send(bytes: seq<Byte>) returns (n: nat)
      modifies `outgoing, `room
      ensures n == Min(|bytes|, old(room)) && room == old(room) - n
      ensures outgoing == old(outgoing) + bytes[..n]
    {
      n := Min(|bytes|, room);
      outgoing := outgoing + bytes[..n];
      room := room - n;
    }

    /** `recv`: the bytes that came in. */
    method Recv(n: nat) returns (bytes: seq<Byte>)
      modifies `incoming
      ensures if n <= |old(incoming)| then bytes == old(incoming)[..n] && incoming == old(incoming)[n..]
              else bytes == old(incoming) && incoming == []
    {
      var k := Min(n, |incoming|);
      bytes := incoming[..k];
      incoming := incoming[k..];
    }

    /** One `send` of the encoder with its length check. */
    method SendPart(bytes: seq<Byte>) returns (ok: bool)
      modifies `outgoing, `room
      ensures Transmitted(bytes, old(outgoing), old(room), outgoing, room, ok)
    {
      var n := Send(bytes);
      ok := n == |bytes|;
    }

    /** A part that follows another one: nothing is sent once a send was short. */
    method SendNext(so: bool, ghost done: seq<Byte>, bytes: seq<Byte>, ghost start: seq<Byte>,
          ghost limit: nat) returns (ok: bool)
      requires Transmitted(done, start, limit, outgoing, room, so)
      modifies `outgoing, `room
      ensures Transmitted(done + bytes, start, limit, outgoing, room, ok)
    {
      if !so {
        Short(done, bytes, start, limit, outgoing, room);
        return false;
      }
      ghost var sent, left := outgoing, room;
      ok := SendPart(bytes);
      Then(done, bytes, start, limit, sent, left, outgoing, room, ok);
    }

    /** A string, its length first. */
    method SendText(so: bool, ghost done: seq<Byte>, text: CString, ghost start: seq<Byte>,
          ghost limit: nat) returns (ok: bool)
      requires Transmitted(done, start, limit, outgoing, room, so)
      modifies `outgoing, `room
      ensures Transmitted(done + EncodeText(order, text), start, limit, outgoing, room, ok)
    {
      var length := |text| % WORD;
      ghost var head := Number(order, length, 4);
      ok := SendNext(so, done, Number(order, length, 4), start, limit);
      ok := SendNext(ok, done + head, TextBytes(text[..length]), start, limit);
      Regroup(done, head, TextBytes(text[..length]));
    }

    /** The body, its size first; no call of `send` is made for an empty one. */
    method SendBody(so: bool, ghost done: seq<Byte>, body: seq<Byte>, ghost start: seq<Byte>,
          ghost limit: nat) returns (ok: bool)
      requires Transmitted(done, start, limit, outgoing, room, so)
      modifies `outgoing, `room
      ensures Transmitted(done + EncodeBody(order, body), start, limit, outgoing, room, ok)
    {
      var size := |body| % WORD;
      ghost var head := Number(order, size, 4);
      ok := SendNext(so, done, Number(order, size, 4), start, limit);
      if size > 0 {
        ok := SendNext(ok, done + head, body[..size], start, limit);
      } else {
        assert done + head + body[..size] == done + head;
      }
      Regroup(done, head, body[..size]);
    }

    method SendProperties(so: bool, ghost done: seq<Byte>, m: Message, ghost start: seq<Byte>,
          ghost limit: nat) returns (ok: bool)
      requires Transmitted(done, start, limit, outgoing, room, so)
      modifies `outgoing, `room
      ensures Transmitted(done + EncodeProperties(order, m), start, limit, outgoing, room, ok)
    {
      ghost var p, x, q := Number(order, m.priority, 4), Number(order, m.expiration, 8), Number(order, m.persistent, 1);
      ok := SendNext(so, done, Number(order, m.priority, 4), start, limit);
      ok := SendNext(ok, done + p, Number(order, m.expiration, 8), start, limit);
      ok := SendNext(ok, done + p + x, Number(order, m.persistent, 1), start, limit);
      Regroup(done + p, x, q);
      Regroup(done, p, x + q);
    }

    /**
     * `send_message_data`. It answers 1 exactly when the connection took the
     * whole encoding; what went out is in any case a prefix of the encoding.
     */
    method SendMessageData(m: Message) returns (ok: bool)
      modifies `outgoing, `room
      ensures ok <==> |Encode(order, m)| <= old(room)
      ensures outgoing == old(outgoing) + Encode(order, m)[..Min(|Encode(order, m)|, old(room))]
      ensures Link(outgoing, room) == AfterSend(order, Link(old(outgoing), old(room)), m)
    {
      ghost var start, limit := outgoing, room;
      ghost var magic, exchange := Number(order, MESSAGE_MAGIC, 4), EncodeText(order, m.exchange);
      ghost var key, body := EncodeText(order, m.routingKey), EncodeBody(order, m.body);
      ok := SendPart(Number(order, MESSAGE_MAGIC, 4));
      ok := SendText(ok, magic, m.exchange, start, limit);
      ok := SendText(ok, magic + exchange, m.routingKey, start, limit);
      ok := SendBody(ok, magic + exchange + key, m.body, start, limit);
      ok := SendProperties(ok, magic + exchange + key + body, m, start, limit);
      EncodeInOrder(order, m);
    }

    /** `receive_message_data`: the message that `Decode` reads, on the heap, or nothing new that is still live. */
    method ReceiveMessageData(heap: Heap) returns (r: Option<Address>)
      modifies `incoming, heap
      ensures incoming == Decode(order, old(incoming)).rest
      ensures match Decode(order, old(incoming))
              case Got(m, _) => r == Some(|old(heap.blocks)|) && heap.Value() == old(heap.Value()).Alloc(m)
              case Failed(_) =>
                && r == None
                && (heap.Value() == old(heap.Value())
                    || exists m :: heap.Value() == old(heap.Value()).Alloc(m).Free(|old(heap.blocks)|))
    {
      var magic := ReceiveNumber(4);
      if magic.None? || magic.value != MESSAGE_MAGIC {
        return None;
      }
      var exchange := ReceiveText();
      if exchange.None? {
        return None;
      }
      var routingKey := ReceiveText();
      if routingKey.None? {
        return None;
      }
      var body := ReceiveBody();
      if body.None? {
        return None;
      }
      var a := heap.Create(exchange.value, routingKey.value, body.value);
      var ok := ReceiveProperties(heap, a);
      assert heap.blocks == old(heap.blocks) + [heap.blocks[a]];
      if !ok {
        assert heap.Value().Free(a) == old(heap.Value()).Alloc(heap.blocks[a]).Free(a);
        heap.Free(a);
        return None;
      }
      return Some(a);
    }

    method ReceiveNumber(width: nat) returns (n: Option<nat>)
      modifies `incoming
      ensures var read := ReadNumber(order, old(incoming), width);
              incoming == read.rest && n == if read.Got? then Some(read.value) else None
    {
      var bytes := Recv(width);
      if |bytes| != width {
        return None;
      }
      return Some(Value(order, bytes));
    }

    method ReceiveText() returns (text: Option<CString>)
      modifies `incoming
      ensures var read := ReadText(order, old(incoming));
              incoming == read.rest && text == if read.Got? then Some(read.value) else None
    {
      var n := ReceiveNumber(4);
      if n.None? || n.value + 1 == WORD {
        return None;
      }
      var bytes := Recv(n.value);
      if |bytes| != n.value {
        return None;
      }
      return Some(TextOf(bytes));
    }

    method ReceiveBody() returns (body: Option<seq<Byte>>)
      modifies `incoming
      ensures var read := ReadBody(order, old(incoming));
              incoming == read.rest && body == if read.Got? then Some(read.value) else None
    {
      var n := ReceiveNumber(4);
      if n.None? {
        return None;
      }
      var bytes: seq<Byte> := [];
      if n.value > 0 {
        bytes := Recv(n.value);
        if |bytes| != n.value {
          return None;
        }
      }
      return Some(bytes);
    }

    /** The properties, read into the message one after the other. */
    method ReceiveProperties(heap: Heap, a: Address) returns (ok: bool)
      requires a < |heap.blocks|
      modifies `incoming, heap
      ensures var read := ReadProperties(order, old(incoming));
              && incoming == read.rest
              && ok == read.Got?
              && heap.frees == old(heap.frees)
              && |heap.blocks| == |old(heap.blocks)|
              && (forall b :: 0 <= b < |heap.blocks| && b != a ==> heap.blocks[b] == old(heap.blocks)[b])
              && (read.Got? ==> heap.blocks[a] == old(heap.blocks)[a].(
                    priority := read.value.priority,
                    expiration := read.value.expiration,
                    persistent := read.value.persistent))
    {
      Widths();
      var priority := ReceiveNumber(4);
      if priority.None? {
        return false;
      }
      heap.blocks := heap.blocks[a := heap.blocks[a].(priority := priority.value)];
      var expiration := ReceiveNumber(8);
      if expiration.None? {
        return false;
      }
      heap.blocks := heap.blocks[a := heap.blocks[a].(expiration := expiration.value)];
      var persistent := ReceiveNumber(1);
      if persistent.None? {
        return false;
      }
      heap.blocks := heap.blocks[a := heap.blocks[a].(persistent := persistent.value)];
      return true;
    }
  }

  /**
   * A send that fails never leaves a whole message on the wire: a receiver
   * that reads what went out gets none, and the messages before it stay intact.
   */
  lemma FailedSendDeliversNothing(order: ByteOrder, sent: seq<Message>, m: Message, room: nat)
    requires forall x :: x in sent ==> Encodable(x)
    requires room < |Encode(order, m)|
    ensures Decode(order, Encode(order, m)[..room]).Failed?
    ensures DecodeStream(order, EncodeAll(order, sent) + Encode(order, m)[..room]).0 == sent
  {
    PrefixFails(order, m, room);
    StreamEnds(order, sent, m, room);
  }
}
