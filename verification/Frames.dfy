/** The bytes of the wire format, and that nothing else is ever read as a message. */
module Frames {
  import opened Sequences
  import opened Memory
  import opened Wire

  // ---------------------------------------------------------------- integers, byte by byte

  /** One byte, and four, the least significant first. */
  lemma LittleDigits(s: seq<Byte>)
    ensures |s| == 1 ==> LittleValue(s) == s[0]
    ensures |s| == 4 ==>
      LittleValue(s) == s[0] as int + 0x100 * s[1] as int + 0x1_0000 * s[2] as int + 0x100_0000 * s[3] as int
  {
    if |s| == 1 {
      assert s[1..] == [];
    } else if |s| == 4 {
      FourDigits(s);
    }
  }

  lemma FourDigits(s: seq<Byte>)
    requires |s| >= 4
    ensures LittleValue(s) ==
            s[0] + 0x100 * s[1] + 0x1_0000 * s[2] + 0x100_0000 * s[3] + 0x1_0000_0000 * LittleValue(s[4..])
  {
    assert s[1..][1..] == s[2..] && s[2..][1..] == s[3..] && s[3..][1..] == s[4..];
    assert LittleValue(s[3..]) == s[3] + 256 * LittleValue(s[4..]);
    assert LittleValue(s[2..]) == s[2] + 256 * LittleValue(s[3..]);
    assert LittleValue(s[1..]) == s[1] + 256 * LittleValue(s[2..]);
  }

  /** Eight bytes are two halves of four, the lower half first. */
  lemma LittleHalves(s: seq<Byte>)
    requires |s| == 8
    ensures LittleValue(s) == LittleValue(s[..4]) + 0x1_0000_0000 * LittleValue(s[4..])
  {
    FourDigits(s);
    FourDigits(s[..4]);
    assert s[..4][4..] == [];
  }

  /** The other byte order has the same bytes in reverse. */
  lemma BigIsReversed(v: nat, width: nat, s: seq<Byte>)
    ensures Number(BigEndian, v, width) == Reverse(Number(LittleEndian, v, width))
    ensures Value(BigEndian, s) == Value(LittleEndian, Reverse(s))
  {
  }

  lemma {:induction false} LittleBack(s: seq<Byte>)
    ensures LittleBytes(LittleValue(s), |s|) == s
  {
    if s != [] {
      LittleBack(s[1..]);
      assert s == [s[0]] + s[1..];
    }
  }

  /** Writing what was read gives the bytes that were read. */
  lemma NumberBack(order: ByteOrder, s: seq<Byte>)
    ensures Number(order, Value(order, s), |s|) == s
  {
    LittleBack(s);
    LittleBack(Reverse(s));
    ReverseTwice(s);
  }

  /** What every message begins with. */
  function MagicBytes(order: ByteOrder): seq<Byte> {
    match order
    case LittleEndian => [0x51, 0x4D, 0x41, 0x52]
    case BigEndian => [0x52, 0x41, 0x4D, 0x51]
  }

  lemma MagicIs(order: ByteOrder)
    ensures Number(order, MESSAGE_MAGIC, 4) == MagicBytes(order)
  {
    var little: seq<Byte> := [0x51, 0x4D, 0x41, 0x52];
    LittleDigits(little);
    assert LittleValue(little) == MESSAGE_MAGIC;
    LittleBack(little);
    assert little[..3] == [0x51, 0x4D, 0x41] && little[..3][..2] == [0x51, 0x4D] && little[..3][..2][..1] == [0x51];
    assert Reverse(little) == [0x52] + Reverse(little[..3]);
    assert Reverse(little[..3]) == [0x41] + Reverse([0x51, 0x4D]);
    assert Reverse(little) == [0x52, 0x41, 0x4D, 0x51];
  }

  // ---------------------------------------------------------------- strings up to the first NUL

  /** What is kept of the bytes of a string: those before the first NUL. */
  lemma {:induction false} TextBeforeNul(bytes: seq<Byte>)
    ensures var text := TextBytes(TextOf(bytes));
            && text <= bytes && 0 !in text
            && (|text| < |bytes| ==> bytes[|text|] == 0)
  {
    if bytes != [] && bytes[0] != 0 {
      TextBeforeNul(bytes[1..]);
      var rest := TextBytes(TextOf(bytes[1..]));
      assert TextBytes(TextOf(bytes)) == [bytes[0]] + rest;
      assert bytes == [bytes[0]] + bytes[1..];
    }
  }

  lemma WholeText(bytes: seq<Byte>)
    ensures TextBytes(TextOf(bytes)) == bytes <==> 0 !in bytes
  {
    TextBeforeNul(bytes);
    var text := TextBytes(TextOf(bytes));
    if |text| == |bytes| {
      assert text == bytes;
    }
  }

  // ---------------------------------------------------------------- what is read as a message

  /** Some bytes with their number before them. */
  function Counted(order: ByteOrder, bytes: seq<Byte>): seq<Byte> {
    Number(order, |bytes|, 4) + bytes
  }

  /** The bytes of one message: magic, exchange, routing key, body, priority, expiration, persistence. */
  function Frame(order: ByteOrder, exchange: seq<Byte>, key: seq<Byte>, m: Message): seq<Byte> {
    MagicBytes(order)
    + (Counted(order, exchange)
    + (Counted(order, key)
    + (Counted(order, m.body)
    + (Number(order, m.priority, 4)
    + (Number(order, m.expiration, 8)
    + Number(order, m.persistent, 1))))))
  }

  /** The strings of `m`, as they were in the stream. */
  predicate Carries(exchange: seq<Byte>, key: seq<Byte>, m: Message) {
    && |exchange| < 0xFFFF_FFFF && |key| < 0xFFFF_FFFF && |m.body| <= 0xFFFF_FFFF
    && m.exchange == TextOf(exchange) && m.routingKey == TextOf(key)
  }

  lemma ReadsBytes(s: seq<Byte>, n: nat)
    ensures var read := ReadBytes(s, n); read.Got? ==> |read.value| == n && s == read.value + read.rest
  {
  }

  lemma ReadsNumber(order: ByteOrder, s: seq<Byte>, width: nat)
    ensures var read := ReadNumber(order, s, width); read.Got? ==> s == Number(order, read.value, width) + read.rest
  {
    ReadsBytes(s, width);
    if |s| >= width {
      NumberBack(order, s[..width]);
    }
  }

  lemma ReadsText(order: ByteOrder, s: seq<Byte>) returns (bytes: seq<Byte>)
    ensures var read := ReadText(order, s);
            read.Got? ==>
              && |bytes| < 0xFFFF_FFFF && read.value == TextOf(bytes)
              && s == Counted(order, bytes) + read.rest
  {
    bytes := [];
    ReadsNumber(order, s, 4);
    Widths();
    var n := ReadNumber(order, s, 4);
    if ReadText(order, s).Got? {
      ReadsBytes(n.rest, n.value);
      bytes := ReadBytes(n.rest, n.value).value;
      Regroup(Number(order, n.value, 4), bytes, ReadText(order, s).rest);
    }
  }

  lemma ReadsBody(order: ByteOrder, s: seq<Byte>)
    ensures var read := ReadBody(order, s);
            read.Got? ==> |read.value| <= 0xFFFF_FFFF && s == Counted(order, read.value) + read.rest
  {
    ReadsNumber(order, s, 4);
    Widths();
    var n := ReadNumber(order, s, 4);
    if ReadBody(order, s).Got? {
      ReadsBytes(n.rest, n.value);
      Regroup(Number(order, n.value, 4), ReadBody(order, s).value, ReadBody(order, s).rest);
    }
  }

  lemma ReadsProperties(order: ByteOrder, s: seq<Byte>)
    ensures var read := ReadProperties(order, s);
            read.Got? ==> s == Number(order, read.value.priority, 4)
                               + (Number(order, read.value.expiration, 8)
                               + (Number(order, read.value.persistent, 1) + read.rest))
  {
    Widths();
    ReadsNumber(order, s, 4);
    var priority := ReadNumber(order, s, 4);
    if priority.Got? {
      ReadsNumber(order, priority.rest, 8);
      var expiration := ReadNumber(order, priority.rest, 8);
      if expiration.Got? {
        ReadsNumber(order, expiration.rest, 1);
      }
    }
  }

  lemma ReadsMagic(order: ByteOrder, s: seq<Byte>)
    ensures var read := ReadMagic(order, s);
            && (read.Got? <==> MagicBytes(order) <= s)
            && (read.Got? ==> s == MagicBytes(order) + read.rest)
            && (read.Failed? && |s| >= 4 ==> read.rest == s[4..])
  {
    MagicIs(order);
    ReadsNumber(order, s, 4);
    if MagicBytes(order) <= s {
      assert s[..4] == MagicBytes(order);
      MagicRead(order, s[4..]);
      assert s == MagicBytes(order) + s[4..];
    }
  }

  lemma FrameAssoc(order: ByteOrder, exchange: seq<Byte>, key: seq<Byte>, m: Message, rest: seq<Byte>)
    ensures Frame(order, exchange, key, m) + rest ==
            MagicBytes(order)
            + (Counted(order, exchange)
            + (Counted(order, key)
            + (Counted(order, m.body)
            + (Number(order, m.priority, 4)
            + (Number(order, m.expiration, 8)
            + (Number(order, m.persistent, 1) + rest))))))
  {
    var g := Number(order, m.persistent, 1);
    var f := Number(order, m.expiration, 8) + g;
    var e := Number(order, m.priority, 4) + f;
    var d := Counted(order, m.body) + e;
    var c := Counted(order, key) + d;
    Regroup(Number(order, m.expiration, 8), g, rest);
    Regroup(Number(order, m.priority, 4), f, rest);
    Regroup(Counted(order, m.body), e, rest);
    Regroup(Counted(order, key), d, rest);
    Regroup(Counted(order, exchange), c, rest);
    Regroup(MagicBytes(order), Counted(order, exchange) + c, rest);
  }

  /** Whatever is read as a message is the frame of that message, and what is left is what comes behind it. */
  lemma DecodeParses(order: ByteOrder, s: seq<Byte>) returns (exchange: seq<Byte>, key: seq<Byte>)
    ensures var read := Decode(order, s);
            read.Got? ==>
              Carries(exchange, key, read.value) && s == Frame(order, exchange, key, read.value) + read.rest
  {
    exchange, key := [], [];
    if Decode(order, s).Got? {
      ReadsMagic(order, s);
      var s1 := ReadMagic(order, s).rest;
      exchange := ReadsText(order, s1);
      var s2 := ReadText(order, s1).rest;
      key := ReadsText(order, s2);
      var s3 := ReadText(order, s2).rest;
      ReadsBody(order, s3);
      ReadsProperties(order, ReadBody(order, s3).rest);
      FrameAssoc(order, exchange, key, Decode(order, s).value, Decode(order, s).rest);
      hide ReadMagic, ReadText, ReadBody, ReadProperties, Number, Counted, MagicBytes, TextOf, Frame;
    }
  }

  lemma CountedText(order: ByteOrder, bytes: seq<Byte>, rest: seq<Byte>)
    requires |bytes| < 0xFFFF_FFFF
    ensures ReadText(order, Counted(order, bytes) + rest) == Got(TextOf(bytes), rest)
  {
    Widths();
    Regroup(Number(order, |bytes|, 4), bytes, rest);
    NumberRead(order, |bytes|, 4, bytes + rest);
    BytesRead(bytes, rest);
  }

  lemma CountedBody(order: ByteOrder, bytes: seq<Byte>, rest: seq<Byte>)
    requires |bytes| <= 0xFFFF_FFFF
    ensures ReadBody(order, Counted(order, bytes) + rest) == Got(bytes, rest)
  {
    Widths();
    Regroup(Number(order, |bytes|, 4), bytes, rest);
    NumberRead(order, |bytes|, 4, bytes + rest);
    BytesRead(bytes, rest);
  }

  /** And every frame is read. */
  lemma FrameDecodes(order: ByteOrder, exchange: seq<Byte>, key: seq<Byte>, m: Message, rest: seq<Byte>)
    requires Carries(exchange, key, m)
    ensures Decode(order, Frame(order, exchange, key, m) + rest) == Got(m, rest)
  {
    var p := EncodeProperties(order, m) + rest;
    var s3 := Counted(order, m.body) + p;
    var s2 := Counted(order, key) + s3;
    FrameAssoc(order, exchange, key, m, rest);
    PropertiesRegroup(order, m, rest);
    MagicIs(order);
    MagicRead(order, Counted(order, exchange) + s2);
    CountedText(order, exchange, s2);
    CountedText(order, key, s3);
    CountedBody(order, m.body, p);
    PropertiesRead(order, m, rest);
    hide ReadMagic, ReadText, ReadBody, ReadProperties, Number, Counted, MagicBytes, TextOf, Frame, EncodeProperties;
  }

  ghost predicate IsFrameOf(order: ByteOrder, s: seq<Byte>, exchange: seq<Byte>, key: seq<Byte>,
        m: Message, rest: seq<Byte>) {
    Carries(exchange, key, m) && s == Frame(order, exchange, key, m) + rest
  }

  /** The receiver gets a message off a stream exactly when the stream begins with a frame of it. */
  lemma DecodeIff(order: ByteOrder, s: seq<Byte>, m: Message, rest: seq<Byte>)
    ensures Decode(order, s) == Got(m, rest) <==> exists exchange, key :: IsFrameOf(order, s, exchange, key, m, rest)
  {
    var exchange, key := DecodeParses(order, s);
    hide Decode, Frame, Carries;
    if Decode(order, s) == Got(m, rest) {
      assert IsFrameOf(order, s, exchange, key, m, rest);
    }
    forall exchange, key | IsFrameOf(order, s, exchange, key, m, rest)
      ensures Decode(order, s) == Got(m, rest)
    {
      FrameDecodes(order, exchange, key, m, rest);
    }
  }

  /** A stream that does not begin with the magic number gives no message; the four bytes are gone. */
  lemma BadMagicFails(order: ByteOrder, s: seq<Byte>)
    requires !(MagicBytes(order) <= s)
    ensures Decode(order, s).Failed?
    ensures |s| >= 4 ==> Decode(order, s).rest == s[4..]
  {
    ReadsMagic(order, s);
    hide ReadMagic;
  }

  /** The encoding of a message is its frame. */
  lemma EncodeIsFrame(order: ByteOrder, m: Message)
    requires Encodable(m)
    ensures Encode(order, m) == Frame(order, TextBytes(m.exchange), TextBytes(m.routingKey), m)
  {
    MagicIs(order);
    CutIff(m.exchange);
    CutIff(m.routingKey);
    CutIff(m.body);
  }

  lemma ShortText(bytes: seq<Byte>)
    ensures |TextOf(bytes)| <= |bytes|
    ensures |TextOf(bytes)| == |bytes| <==> 0 !in bytes
  {
    TextBeforeNul(bytes);
    WholeText(bytes);
  }

  lemma FrameLength(order: ByteOrder, exchange: seq<Byte>, key: seq<Byte>, m: Message)
    ensures |Frame(order, exchange, key, m)| == 29 + |exchange| + |key| + |m.body|
  {
  }

  /** A frame is the encoding of its message exactly when its strings have no NUL. */
  lemma FrameIsEncodingIff(order: ByteOrder, exchange: seq<Byte>, key: seq<Byte>, m: Message)
    requires Carries(exchange, key, m)
    ensures Frame(order, exchange, key, m) == Encode(order, m) <==> 0 !in exchange && 0 !in key
  {
    hide Frame, TextOf, Encode;
    ShortText(exchange);
    ShortText(key);
    EncodeIsFrame(order, m);
    FrameLength(order, exchange, key, m);
    FrameLength(order, TextBytes(m.exchange), TextBytes(m.routingKey), m);
    WholeText(exchange);
    WholeText(key);
  }

  lemma Cancel(a: seq<Byte>, b: seq<Byte>, rest: seq<Byte>)
    ensures a + rest == b + rest <==> a == b
  {
    if a + rest == b + rest {
      assert |a| == |b|;
      assert a == (a + rest)[..|a|] == (b + rest)[..|b|] == b;
    }
  }

  /** The converse of the round trip: what is read is its own encoding exactly when the strings had no NUL. */
  lemma DecodeThenEncode(order: ByteOrder, s: seq<Byte>) returns (exchange: seq<Byte>, key: seq<Byte>)
    ensures var read := Decode(order, s);
            read.Got? ==>
              && IsFrameOf(order, s, exchange, key, read.value, read.rest)
              && (s == Encode(order, read.value) + read.rest <==> 0 !in exchange && 0 !in key)
  {
    hide Decode, Frame, Encode, Carries;
    exchange, key := DecodeParses(order, s);
    var read := Decode(order, s);
    if read.Got? {
      FrameIsEncodingIff(order, exchange, key, read.value);
      Cancel(Frame(order, exchange, key, read.value), Encode(order, read.value), read.rest);
    }
  }
}
