/** From the bytes a producer sends to the bytes a consumer reads. */
module EndToEnd {
  import opened Sequences
  import opened Memory
  import opened Routing
  import opened BrokerRuns
  import opened Clients
  import opened Wire
  import opened Connection

  /** Every message that is read off a stream can be sent on. */
  lemma ReadIsEncodable(order: ByteOrder, s: seq<Byte>)
    ensures Decode(order, s).Got? ==> Encodable(Decode(order, s).value)
  {
    if Decode(order, s).Got? {
      var s1 := ReadMagic(order, s).rest;
      var s2 := ReadText(order, s1).rest;
      TextIsShort(order, s1);
      TextIsShort(order, s2);
      Widths();
    }
  }

  lemma TextIsShort(order: ByteOrder, s: seq<Byte>)
    ensures ReadText(order, s).Got? ==> |ReadText(order, s).value| < WORD - 1
  {
    Widths();
    var n := ReadNumber(order, s, 4);
    if ReadText(order, s).Got? {
      TextOfLength(ReadBytes(n.rest, n.value).value);
    }
  }

  lemma {:induction false} TextOfLength(bytes: seq<Byte>)
    ensures |TextOf(bytes)| <= |bytes|
  {
    if bytes != [] {
      TextOfLength(bytes[1..]);
    }
  }

  /** The messages that can arrive are exactly the encodable ones. */
  lemma ArrivesIff(order: ByteOrder, m: Message)
    ensures (exists s :: Decode(order, s).Got? && Decode(order, s).value == m) <==> Encodable(m)
  {
    if Encodable(m) {
      RoundTripIff(order, m, []);
      assert Decode(order, Encode(order, m) + []).value == m;
    }
    forall s | Decode(order, s).Got? && Decode(order, s).value == m
      ensures Encodable(m)
    {
      ReadIsEncodable(order, s);
    }
  }

  lemma {:induction false} SentEncodable(b: Broker, events: seq<Event>, c: nat)
    requires b.Valid()
    requires forall i :: 0 <= i < |events| && events[i].Incoming? ==> Encodable(events[i].message)
    ensures forall m :: m in SentDuring(b, events, c) ==> Encodable(m)
  {
    if events != [] {
      var n := |events| - 1;
      SentEncodable(b, events[..n], c);
      var last := SentBy(Run(b, events[..n]), events[n], c);
      assert forall m :: m in last ==> events[n].Incoming? && m == events[n].message;
    }
  }

  /**
   * Of the messages `given` to a connection the peer reads the first `k`, in
   * order, and those are all whose encodings the connection took whole.
   */
  ghost predicate ReadsFirst(order: ByteOrder, link: Link, given: seq<Message>, k: nat) {
    var bytes := AfterSends(order, link, given).outgoing;
    && k <= |given| && link.outgoing <= bytes
    && DecodeStream(order, bytes[|link.outgoing|..]).0 == given[..k]
    && (k == |given| ==> DecodeStream(order, bytes[|link.outgoing|..]).1 == [])
    && if k == |given| then |EncodeAll(order, given)| <= link.room
       else |EncodeAll(order, given[..k])| <= link.room < |EncodeAll(order, given[..k + 1])|
  }

  lemma ReadsWhole(order: ByteOrder, link: Link, given: seq<Message>) returns (k: nat)
    requires forall m :: m in given ==> Encodable(m)
    ensures ReadsFirst(order, link, given, k)
  {
    hide DecodeStream, AfterSends, EncodeAll, Encodable;
    SendsAreStream(order, link, given);
    var bytes := EncodeAll(order, given);
    var n := Min(|bytes|, link.room);
    assert (link.outgoing + bytes[..n])[|link.outgoing|..] == bytes[..n];
    k := CutStream(order, given, n);
    assert given[..|given|] == given && bytes[..|bytes|] == bytes;
  }

  /** What client `c` is sent in a run. */
  function Since(b: Broker, events: seq<Event>, c: nat): (sent: seq<Message>)
    requires b.Valid()
    ensures SentTo(Run(b, events).attempts, c) == SentTo(b.attempts, c) + sent
  {
    ClientLog(b, events, c);
    SentTo(Run(b, events).attempts, c)[|SentTo(b.attempts, c)|..]
  }

  /**
   * Every client, whatever its registrations: what it reads from its socket is
   * every publish's min(free slots, matching bindings) copies per queue, once
   * for each of its registrations; all of them while its connection lasts.
   */
  lemma ClientReads(order: ByteOrder, b: Broker, events: seq<Event>, c: nat, link: Link) returns (k: nat)
    requires b.Valid()
    requires forall i :: 0 <= i < |events| && events[i].Incoming? ==> Encodable(events[i].message)
    ensures Since(b, events, c) == SentDuring(b, events, c)
    ensures ReadsFirst(order, link, Since(b, events, c), k)
  {
    hide ReadsFirst;
    ClientLog(b, events, c);
    SentEncodable(b, events, c);
    var before := SentTo(b.attempts, c);
    assert (before + SentDuring(b, events, c))[|before|..] == SentDuring(b, events, c);
    k := ReadsWhole(order, link, Since(b, events, c));
  }

  /**
   * A consumer with one registration, that stays connected and does not
   * register again, reads what routing enqueued into its queue since, in order
   * and nothing else; all of it while the connection lasts, and otherwise
   * exactly the messages that went out whole.
   */
  lemma ConsumerReadsQueue(order: ByteOrder, b: Broker, events: seq<Event>, r: nat, q: nat, link: Link) returns (k: nat)
    requires b.Valid() && UniqueNames(b) && Serves(b, r, q) && Sole(b.registrations, r)
    requires forall i :: 0 <= i < |events| ==> !Disconnects(b, r, events[i]) && !Joins(b, r, events[i])
    requires forall i :: 0 <= i < |events| && events[i].Incoming? ==> Encodable(events[i].message)
    ensures Since(b, events, b.registrations[r].client) == EnqueuedDuring(b, events, q)
    ensures ReadsFirst(order, link, EnqueuedDuring(b, events, q), k)
  {
    hide ReadsFirst;
    SoleConsumerLog(b, events, r, q);
    k := ClientReads(order, b, events, b.registrations[r].client, link);
  }
}
