/**
 * The wire format of `send_message_data` and `receive_message_data`
 * (`src/core/connection.c`), as functions on bytes.
 */
module Wire {
  import opened Sequences
  import opened Memory

  const MESSAGE_MAGIC: UInt32 := 0x52414D51
  const WORD: nat := 0x1_0000_0000

  /** Both ends write integers as their hosts hold them; the format assumes one order. */
  datatype ByteOrder = LittleEndian | BigEndian

  // ---------------------------------------------------------------- integers

  function Pow256(n: nat): (p: nat)
    ensures p > 0
  {
    if n == 0 then 1 else 256 * Pow256(n - 1)
  }

  function LittleBytes(v: nat, width: nat): (bytes: seq<Byte>)
    ensures |bytes| == width
  {
    if width == 0 then [] else [v % 256] + LittleBytes(v / 256, width - 1)
  }

  function LittleValue(bytes: seq<Byte>): (v: nat)
    ensures v < Pow256(|bytes|)
  {
    if bytes == [] then 0 else bytes[0] + 256 * LittleValue(bytes[1..])
  }

  function Number(order: ByteOrder, v: nat, width: nat): (bytes: seq<Byte>)
    ensures |bytes| == width
  {
    if order.LittleEndian? then LittleBytes(v, width) else Reverse(LittleBytes(v, width))
  }

  function Value(order: ByteOrder, bytes: seq<Byte>): (v: nat)
    ensures v < Pow256(|bytes|)
  {
    if order.LittleEndian? then LittleValue(bytes) else LittleValue(Reverse(bytes))
  }

  lemma {:induction false} LittleRoundTrip(v: nat, width: nat)
    requires v < Pow256(width)
    ensures LittleValue(LittleBytes(v, width)) == v
  {
    if width > 0 {
      LittleRoundTrip(v / 256, width - 1);
      assert LittleBytes(v, width)[1..] == LittleBytes(v / 256, width - 1);
    }
  }

  lemma {:induction false} ReverseTwice<T>(s: seq<T>)
    ensures Reverse(Reverse(s)) == s
  {
    if s != [] {
      var n := |s| - 1;
      ReverseTwice(s[..n]);
      ReverseCons(s[n], Reverse(s[..n]));
    }
  }

  lemma NumberRoundTrip(order: ByteOrder, v: nat, width: nat)
    requires v < Pow256(width)
    ensures Value(order, Number(order, v, width)) == v
  {
    LittleRoundTrip(v, width);
    ReverseTwice(LittleBytes(v, width));
  }

  lemma Widths()
    ensures Pow256(1) == 0x100 && Pow256(4) == WORD && Pow256(8) == WORD * WORD
  {
    assert Pow256(2) == 256 * Pow256(1) && Pow256(3) == 256 * Pow256(2) && Pow256(4) == 256 * Pow256(3);
    assert Pow256(5) == 256 * Pow256(4) && Pow256(6) == 256 * Pow256(5) && Pow256(7) == 256 * Pow256(6);
  }

  // ---------------------------------------------------------------- strings

  function TextBytes(text: CString): (bytes: seq<Byte>)
    ensures |bytes| == |text|
  {
    seq(|text|, i requires 0 <= i < |text| => text[i] as int)
  }

  /** What C reads from a buffer: the characters before the first NUL. */
  function TextOf(bytes: seq<Byte>): CString {
    if bytes == [] || bytes[0] == 0 then [] else [bytes[0] as char] + TextOf(bytes[1..])
  }

  lemma {:induction false} TextRoundTrip(text: CString)
    ensures TextOf(TextBytes(text)) == text
  {
    if text != [] {
      TextRoundTrip(text[1..]);
      assert TextBytes(text)[1..] == TextBytes(text[1..]);
    }
  }

  // ---------------------------------------------------------------- the encoder

  /** Lengths are kept in 32 bits, and as many bytes are sent as the kept length says. */
  function Cut<T>(s: seq<T>): seq<T> {
    s[..|s| % WORD]
  }

  function EncodeText(order: ByteOrder, text: CString): seq<Byte> {
    Number(order, |text| % WORD, 4) + TextBytes(Cut(text))
  }

  function EncodeBody(order: ByteOrder, body: seq<Byte>): seq<Byte> {
    Number(order, |body| % WORD, 4) + Cut(body)
  }

  function EncodeProperties(order: ByteOrder, m: Message): seq<Byte> {
    Number(order, m.priority, 4) + (Number(order, m.expiration, 8) + Number(order, m.persistent, 1))
  }

  function Encode(order: ByteOrder, m: Message): seq<Byte> {
    Number(order, MESSAGE_MAGIC, 4)
    + (EncodeText(order, m.exchange)
    + (EncodeText(order, m.routingKey)
    + (EncodeBody(order, m.body)
    + EncodeProperties(order, m))))
  }

  function EncodeAll(order: ByteOrder, ms: seq<Message>): seq<Byte> {
    if ms == [] then [] else Encode(order, ms[0]) + EncodeAll(order, ms[1..])
  }

  // ---------------------------------------------------------------- the decoder

  /** A read from a stream: a value, or a failure; both say what is left in the stream. */
  datatype Read<+T> = Failed(rest: seq<Byte>) | Got(value: T, rest: seq<Byte>) {

    predicate IsFailure() {
      Failed?
    }

    function PropagateFailure<U>(): Read<U>
      requires Failed?
    {
      Failed(rest)
    }

    function Extract(): (T, seq<Byte>)
      requires Got?
    {
      (value, rest)
    }
  }

  /** A full-length `recv` of `n` bytes; a stream that ends before gives all it has. */
  function ReadBytes(s: seq<Byte>, n: nat): (read: Read<seq<Byte>>)
    ensures |read.rest| <= |s|
  {
    if |s| < n then Failed([]) else Got(s[..n], s[n..])
  }

  function ReadNumber(order: ByteOrder, s: seq<Byte>, width: nat): (read: Read<nat>)
    ensures |read.rest| <= |s|
    ensures read.Got? ==> read.value < Pow256(width)
  {
    var (bytes, rest) :- ReadBytes(s, width);
    Got(Value(order, bytes), rest)
  }

  /** A string needs a buffer of one byte more; that size is computed in 32 bits, where the longest length has none. */
  function ReadText(order: ByteOrder, s: seq<Byte>): (read: Read<CString>)
    ensures |read.rest| <= |s|
  {
    var (n, rest) :- ReadNumber(order, s, 4);
    if n + 1 == WORD then Failed(rest)
    else
      var (bytes, rest) :- ReadBytes(rest, n);
      Got(TextOf(bytes), rest)
  }

  function ReadBody(order: ByteOrder, s: seq<Byte>): (read: Read<seq<Byte>>)
    ensures |read.rest| <= |s|
  {
    var (n, rest) :- ReadNumber(order, s, 4);
    ReadBytes(rest, n)
  }

  datatype Properties = Properties(priority: UInt32, expiration: UInt64, persistent: Byte)

  function ReadProperties(order: ByteOrder, s: seq<Byte>): (read: Read<Properties>)
    ensures |read.rest| <= |s|
  {
    var (priority, rest) :- ReadNumber(order, s, 4);
    var (expiration, rest) :- ReadNumber(order, rest, 8);
    var (persistent, rest) :- ReadNumber(order, rest, 1);
    Widths();
    Got(Properties(priority, expiration, persistent), rest)
  }

  function ReadMagic(order: ByteOrder, s: seq<Byte>): (read: Read<nat>)
    ensures read.Got? ==> |read.rest| < |s|
  {
    var (magic, rest) :- ReadNumber(order, s, 4);
    if magic != MESSAGE_MAGIC then Failed(rest) else Got(magic, rest)
  }

  function Decode(order: ByteOrder, s: seq<Byte>): (read: Read<Message>)
    ensures read.Got? ==> |read.rest| < |s|
  {
    var (_, rest) :- ReadMagic(order, s);
    var (exchange, rest) :- ReadText(order, rest);
    var (routingKey, rest) :- ReadText(order, rest);
    var (body, rest) :- ReadBody(order, rest);
    var (p, rest) :- ReadProperties(order, rest);
    Got(Message(exchange, routingKey, body, p.priority, p.expiration, p.persistent), rest)
  }

  // ---------------------------------------------------------------- what decoding an encoding gives

  lemma BytesRead(bytes: seq<Byte>, rest: seq<Byte>)
    ensures ReadBytes(bytes + rest, |bytes|) == Got(bytes, rest)
  {
    assert (bytes + rest)[..|bytes|] == bytes && (bytes + rest)[|bytes|..] == rest;
  }

  lemma NumberRead(order: ByteOrder, v: nat, width: nat, rest: seq<Byte>)
    requires v < Pow256(width)
    ensures ReadNumber(order, Number(order, v, width) + rest, width) == Got(v, rest)
  {
    BytesRead(Number(order, v, width), rest);
    NumberRoundTrip(order, v, width);
  }

  /** The one length whose buffer size wraps around to zero. */
  predicate Overlong(length: nat) {
    length % WORD == WORD - 1
  }

  lemma TextRead(order: ByteOrder, text: CString, rest: seq<Byte>)
    ensures var read := ReadText(order, EncodeText(order, text) + rest);
            if Overlong(|text|) then read.Failed? else read == Got(Cut(text), rest)
  {
    var n, bytes := |text| % WORD, TextBytes(Cut(text));
    assert EncodeText(order, text) + rest == Number(order, n, 4) + (bytes + rest);
    assert n < Pow256(4) by {
      Widths();
    }
    NumberRead(order, n, 4, bytes + rest);
    BytesRead(bytes, rest);
    TextRoundTrip(Cut(text));
  }

  lemma BodyRead(order: ByteOrder, body: seq<Byte>, rest: seq<Byte>)
    ensures ReadBody(order, EncodeBody(order, body) + rest) == Got(Cut(body), rest)
  {
    Widths();
    assert EncodeBody(order, body) + rest == Number(order, |body| % WORD, 4) + (Cut(body) + rest);
    NumberRead(order, |body| % WORD, 4, Cut(body) + rest);
    BytesRead(Cut(body), rest);
  }

  lemma PropertiesRegroup(order: ByteOrder, m: Message, rest: seq<Byte>)
    ensures EncodeProperties(order, m) + rest ==
            Number(order, m.priority, 4) + (Number(order, m.expiration, 8) + (Number(order, m.persistent, 1) + rest))
  {
    Regroup(Number(order, m.expiration, 8), Number(order, m.persistent, 1), rest);
    Regroup(Number(order, m.priority, 4), Number(order, m.expiration, 8) + Number(order, m.persistent, 1), rest);
  }

  lemma PropertiesRead(order: ByteOrder, m: Message, rest: seq<Byte>)
    ensures ReadProperties(order, EncodeProperties(order, m) + rest)
         == Got(Properties(m.priority, m.expiration, m.persistent), rest)
  {
    var s1 := Number(order, m.persistent, 1) + rest;
    var s2 := Number(order, m.expiration, 8) + s1;
    PropertiesRegroup(order, m, rest);
    Widths();
    NumberRead(order, m.priority, 4, s2);
    NumberRead(order, m.expiration, 8, s1);
    NumberRead(order, m.persistent, 1, rest);
  }

  lemma MagicRead(order: ByteOrder, rest: seq<Byte>)
    ensures ReadMagic(order, Number(order, MESSAGE_MAGIC, 4) + rest) == Got(MESSAGE_MAGIC, rest)
  {
    Widths();
    NumberRead(order, MESSAGE_MAGIC, 4, rest);
  }

  /** The message the receiver builds: every string and the body cut to its length modulo 2^32. */
  function Received(m: Message): Message {
    m.(exchange := Cut(m.exchange), routingKey := Cut(m.routingKey), body := Cut(m.body))
  }

  /** For every message whatever: what decoding its encoding gives, with anything behind it in the stream. */
  lemma DecodeEncode(order: ByteOrder, m: Message, rest: seq<Byte>)
    ensures var read := Decode(order, Encode(order, m) + rest);
            if Overlong(|m.exchange|) || Overlong(|m.routingKey|) then read.Failed?
            else read == Got(Received(m), rest)
  {
    var e5 := EncodeProperties(order, m);
    var e4 := EncodeBody(order, m.body) + e5;
    var e3 := EncodeText(order, m.routingKey) + e4;
    var e2 := EncodeText(order, m.exchange) + e3;
    Regroup(Number(order, MESSAGE_MAGIC, 4), e2, rest);
    Regroup(EncodeText(order, m.exchange), e3, rest);
    Regroup(EncodeText(order, m.routingKey), e4, rest);
    Regroup(EncodeBody(order, m.body), e5, rest);
    MagicRead(order, e2 + rest);
    TextRead(order, m.exchange, e3 + rest);
    TextRead(order, m.routingKey, e4 + rest);
    BodyRead(order, m.body, e5 + rest);
    PropertiesRead(order, m, rest);
  }

  /** The messages the format carries. */
  predicate Encodable(m: Message) {
    |m.exchange| < WORD - 1 && |m.routingKey| < WORD - 1 && |m.body| < WORD
  }

  /** A message survives the wire exactly when its strings are shorter than 2^32 - 1 and its body than 2^32 bytes. */
  lemma RoundTripIff(order: ByteOrder, m: Message, rest: seq<Byte>)
    ensures Decode(order, Encode(order, m) + rest) == Got(m, rest) <==> Encodable(m)
  {
    DecodeEncode(order, m, rest);
    CutIff(m.exchange);
    CutIff(m.routingKey);
    CutIff(m.body);
  }

  lemma CutIff<T>(s: seq<T>)
    ensures Cut(s) == s <==> |s| < WORD
    ensures |s| < WORD ==> |s| % WORD == |s|
  {
    assert |Cut(s)| == |s| % WORD;
  }

  /** The length of an encoding. */
  lemma EncodedLength(order: ByteOrder, m: Message)
    requires Encodable(m)
    ensures |Encode(order, m)| == 29 + |m.exchange| + |m.routingKey| + |m.body|
  {
    CutIff(m.exchange);
    CutIff(m.routingKey);
    CutIff(m.body);
  }

  // ---------------------------------------------------------------- framing

  /** A read that succeeded does not depend on what comes after. */
  lemma NumberExtends(order: ByteOrder, s: seq<Byte>, width: nat, more: seq<Byte>)
    ensures var read := ReadNumber(order, s, width);
            read.Got? ==> ReadNumber(order, s + more, width) == Got(read.value, read.rest + more)
  {
    BytesExtend(s, width, more);
  }

  lemma BytesExtend(s: seq<Byte>, n: nat, more: seq<Byte>)
    ensures var read := ReadBytes(s, n); read.Got? ==> ReadBytes(s + more, n) == Got(read.value, read.rest + more)
  {
    if n <= |s| {
      assert (s + more)[..n] == s[..n] && (s + more)[n..] == s[n..] + more;
    }
  }

  lemma TextExtends(order: ByteOrder, s: seq<Byte>, more: seq<Byte>)
    ensures var read := ReadText(order, s);
            read.Got? ==> ReadText(order, s + more) == Got(read.value, read.rest + more)
  {
    NumberExtends(order, s, 4, more);
    var n := ReadNumber(order, s, 4);
    if n.Got? {
      BytesExtend(n.rest, n.value, more);
    }
  }

  lemma BodyExtends(order: ByteOrder, s: seq<Byte>, more: seq<Byte>)
    ensures var read := ReadBody(order, s);
            read.Got? ==> ReadBody(order, s + more) == Got(read.value, read.rest + more)
  {
    NumberExtends(order, s, 4, more);
    var n := ReadNumber(order, s, 4);
    if n.Got? {
      BytesExtend(n.rest, n.value, more);
    }
  }

  lemma PropertiesExtend(order: ByteOrder, s: seq<Byte>, more: seq<Byte>)
    ensures var read := ReadProperties(order, s);
            read.Got? ==> ReadProperties(order, s + more) == Got(read.value, read.rest + more)
  {
    NumberExtends(order, s, 4, more);
    var priority := ReadNumber(order, s, 4);
    if priority.Got? {
      NumberExtends(order, priority.rest, 8, more);
      var expiration := ReadNumber(order, priority.rest, 8);
      if expiration.Got? {
        NumberExtends(order, expiration.rest, 1, more);
      }
    }
  }

  lemma DecodeExtends(order: ByteOrder, s: seq<Byte>, more: seq<Byte>)
    ensures var read := Decode(order, s);
            read.Got? ==> Decode(order, s + more) == Got(read.value, read.rest + more)
  {
    if Decode(order, s).Got? {
      NumberExtends(order, s, 4, more);
      var s1 := ReadMagic(order, s).rest;
      TextExtends(order, s1, more);
      var s2 := ReadText(order, s1).rest;
      TextExtends(order, s2, more);
      var s3 := ReadText(order, s2).rest;
      BodyExtends(order, s3, more);
      PropertiesExtend(order, ReadBody(order, s3).rest, more);
    }
  }

  /** No strict prefix of an encoding decodes, whatever the message. */
  lemma PrefixFails(order: ByteOrder, m: Message, n: nat)
    requires n < |Encode(order, m)|
    ensures Decode(order, Encode(order, m)[..n]).Failed?
  {
    hide Decode, Encode;
    var bytes := Encode(order, m);
    DecodeExtends(order, bytes[..n], bytes[n..]);
    DecodeEncode(order, m, []);
    assert bytes[..n] + bytes[n..] == bytes && bytes + [] == bytes;
  }

  /** The first message of a stream and what follows are determined by the bytes. */
  lemma FramingUnique(order: ByteOrder, m1: Message, rest1: seq<Byte>, m2: Message, rest2: seq<Byte>)
    requires Encodable(m1) && Encodable(m2)
    ensures Encode(order, m1) + rest1 == Encode(order, m2) + rest2 <==> m1 == m2 && rest1 == rest2
  {
    hide Decode, Encode;
    RoundTripIff(order, m1, rest1);
    RoundTripIff(order, m2, rest2);
  }

  // ---------------------------------------------------------------- streams

  /** The receiver's loop: messages until a read fails. */
  function DecodeStream(order: ByteOrder, s: seq<Byte>): (seq<Message>, seq<Byte>)
    decreases |s|
  {
    match Decode(order, s)
    case Failed(rest) => ([], rest)
    case Got(m, rest) =>
      var (ms, end) := DecodeStream(order, rest);
      ([m] + ms, end)
  }

  lemma DecodeStreamCons(order: ByteOrder, s: seq<Byte>, m: Message, rest: seq<Byte>)
    requires Decode(order, s) == Got(m, rest)
    ensures DecodeStream(order, s) == ([m] + DecodeStream(order, rest).0, DecodeStream(order, rest).1)
  {
  }

  lemma DecodeStreamEnds(order: ByteOrder, s: seq<Byte>)
    requires Decode(order, s).Failed?
    ensures DecodeStream(order, s) == ([], Decode(order, s).rest)
  {
  }

  lemma StreamStep(order: ByteOrder, m: Message, s: seq<Byte>)
    requires Encodable(m)
    ensures DecodeStream(order, Encode(order, m) + s) == ([m] + DecodeStream(order, s).0, DecodeStream(order, s).1)
  {
    RoundTripIff(order, m, s);
    DecodeStreamCons(order, Encode(order, m) + s, m, s);
  }

  /** Any sequence of messages comes out of the stream as it went in, whatever undecodable bytes follow. */
  lemma {:induction false} StreamRoundTrip(order: ByteOrder, ms: seq<Message>, tail: seq<Byte>)
    requires forall m :: m in ms ==> Encodable(m)
    requires Decode(order, tail).Failed?
    ensures DecodeStream(order, EncodeAll(order, ms) + tail) == (ms, Decode(order, tail).rest)
  {
    hide Decode, Encode, DecodeStream;
    if ms == [] {
      DecodeStreamEnds(order, tail);
      assert EncodeAll(order, ms) + tail == tail;
    } else {
      StreamRoundTrip(order, ms[1..], tail);
      Regroup(Encode(order, ms[0]), EncodeAll(order, ms[1..]), tail);
      StreamStep(order, ms[0], EncodeAll(order, ms[1..]) + tail);
      assert [ms[0]] + ms[1..] == ms;
    }
  }

  /** The stream that ends after some messages, and the one that is cut inside the next, deliver just those messages. */
  lemma StreamEnds(order: ByteOrder, ms: seq<Message>, next: Message, n: nat)
    requires forall m :: m in ms ==> Encodable(m)
    requires n < |Encode(order, next)|
    ensures DecodeStream(order, EncodeAll(order, ms)) == (ms, [])
    ensures DecodeStream(order, EncodeAll(order, ms) + Encode(order, next)[..n]).0 == ms
  {
    StreamRoundTrip(order, ms, []);
    hide Encode, DecodeStream;
    assert EncodeAll(order, ms) + [] == EncodeAll(order, ms);
    PrefixFails(order, next, n);
    StreamRoundTrip(order, ms, Encode(order, next)[..n]);
  }

  lemma {:induction false} EncodeAllSnoc(order: ByteOrder, ms: seq<Message>, m: Message)
    ensures EncodeAll(order, ms + [m]) == EncodeAll(order, ms) + Encode(order, m)
  {
    hide Encode;
    if ms == [] {
      assert EncodeAll(order, [m]) == Encode(order, m) + EncodeAll(order, []);
    } else {
      EncodeAllSnoc(order, ms[1..], m);
      assert (ms + [m])[1..] == ms[1..] + [m];
      Regroup(Encode(order, ms[0]), EncodeAll(order, ms[1..]), Encode(order, m));
    }
  }

  /** A stream that was cut anywhere delivers exactly the messages whose encodings are whole. */
  lemma {:induction false} CutStream(order: ByteOrder, ms: seq<Message>, n: nat) returns (k: nat)
    requires (forall m :: m in ms ==> Encodable(m)) && n <= |EncodeAll(order, ms)|
    ensures k <= |ms| && |EncodeAll(order, ms[..k])| <= n && (k < |ms| ==> n < |EncodeAll(order, ms[..k + 1])|)
    ensures DecodeStream(order, EncodeAll(order, ms)[..n]).0 == ms[..k]
    ensures n == |EncodeAll(order, ms)| ==> k == |ms| && DecodeStream(order, EncodeAll(order, ms)).1 == []
  {
    hide Decode, Encode, DecodeStream;
    k := 0;
    if ms == [] {
      NothingDecodes(order);
    } else if n < |Encode(order, ms[0])| {
      CutInFirst(order, ms, n);
    } else {
      var n' := n - |Encode(order, ms[0])|;
      k := CutStream(order, ms[1..], n');
      CutAfterFirst(order, ms, n);
      EncodePrefix(order, ms, k);
      if k < |ms[1..]| {
        EncodePrefix(order, ms, k + 1);
      }
      k := k + 1;
      assert [ms[0]] + ms[1..][..k - 1] == ms[..k];
      hide EncodeAll;
    }
  }

  lemma NothingDecodes(order: ByteOrder)
    ensures DecodeStream(order, []) == ([], [])
  {
  }

  lemma CutInFirst(order: ByteOrder, ms: seq<Message>, n: nat)
    requires ms != [] && n < |Encode(order, ms[0])|
    ensures n < |EncodeAll(order, ms)| && n < |EncodeAll(order, ms[..1])|
    ensures DecodeStream(order, EncodeAll(order, ms)[..n]).0 == []
  {
    hide Decode, Encode;
    PrefixFails(order, ms[0], n);
    assert EncodeAll(order, ms)[..n] == Encode(order, ms[0])[..n];
    assert ms[..1][1..] == [];
  }

  lemma CutAfterFirst(order: ByteOrder, ms: seq<Message>, n: nat)
    requires ms != [] && Encodable(ms[0]) && |Encode(order, ms[0])| <= n <= |EncodeAll(order, ms)|
    ensures var rest, n' := EncodeAll(order, ms[1..]), n - |Encode(order, ms[0])|;
            && DecodeStream(order, EncodeAll(order, ms)[..n]).0 == [ms[0]] + DecodeStream(order, rest[..n']).0
            && DecodeStream(order, EncodeAll(order, ms)).1 == DecodeStream(order, rest).1
            && |EncodeAll(order, ms)| == |Encode(order, ms[0])| + |rest|
  {
    hide Decode, Encode, DecodeStream;
    var first, rest := Encode(order, ms[0]), EncodeAll(order, ms[1..]);
    StreamStep(order, ms[0], rest[..n - |first|]);
    StreamStep(order, ms[0], rest);
    assert EncodeAll(order, ms)[..n] == first + rest[..n - |first|];
  }

  lemma EncodePrefix(order: ByteOrder, ms: seq<Message>, k: nat)
    requires k < |ms|
    ensures EncodeAll(order, ms[..k + 1]) == Encode(order, ms[0]) + EncodeAll(order, ms[1..][..k])
  {
    assert ms[..k + 1][1..] == ms[1..][..k];
  }
}
