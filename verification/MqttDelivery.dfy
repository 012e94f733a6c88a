/**
  What the messages of one device come to: the topics and payloads that `publish` reports as sent, and
  those the sink finds in the packets it handles, over whole runs of the link.
 */
module MqttDelivery {
  import opened Wrappers
  import opened Framing
  import opened Numbers
  import opened MqttCodec
  import opened MqttClient
  import opened MqttLink
  import S = MqttSink

  datatype Message = Message(topic: seq<byte>, payload: seq<byte>)

  /** The message in a packet, as section 3.3 reads it. */
  function Carried(p: Packet): seq<Message> {
    match ReadPublish(p)
    case None => []
    case Some(m) => [Message(m.topic, m.payload)]
  }

  function Messages(ps: seq<Packet>): seq<Message> { FlatMap(Carried, ps) }

  /** The message of a call of `publish` that neither raises nor returns -1. */
  function Out(l: Link, e: Event): seq<Message> {
    if e.Publish? && !e.raises && l.client.connected && PublishStep(l.client, e.payload, e.qos).result != -1 then
      [Message(l.client.topic, e.payload)]
    else []
  }

  /** The messages in the packets that a delivery completes at the sink. */
  function In(l: Link, e: Event): seq<Message> {
    if e.CarryUp? then Messages(Take(PACKETS, l.sink.buf + l.up[..Min(e.n, |l.up|)]).frames) else []
  }

  function PublishedIn(l: Link, es: seq<Event>): seq<Message>
    decreases |es|
  {
    if es == [] then [] else Out(l, es[0]) + PublishedIn(Next(l, es[0]), es[1..])
  }

  function DecodedIn(l: Link, es: seq<Event>): seq<Message>
    decreases |es|
  {
    if es == [] then [] else In(l, es[0]) + DecodedIn(Next(l, es[0]), es[1..])
  }

  function OnTheWay(l: Link): seq<Message> { Messages(InUp(l).frames) }

  /** Every packet that the sink will count as a PUBLISH has a message in it. */
  ghost predicate Readable(l: Link) {
    forall p | p in InUp(l).frames :: S.Publishes(p) == |Carried(p)|
  }

  lemma MessagesOneMore(ps: seq<Packet>, p: Packet)
    ensures Messages(ps + [p]) == Messages(ps) + Carried(p)
  {
    FlatMapAppend(Carried, ps, [p]);
    Singleton(Carried, p);
  }

  lemma {:induction false} ReadableMeansCounted(ps: seq<Packet>)
    requires forall p | p in ps :: S.Publishes(p) == |Carried(p)|
    ensures S.PublishCount(ps) == |Messages(ps)|
  {
    if ps != [] {
      assert forall p | p in ps[1..] :: p in ps;
      ReadableMeansCounted(ps[1..]);
    }
  }

  /** One packet written: its message is the last one on the way. */
  lemma Written(l: Link, p: Packet, l': Link)
    requires WellFramed(l) && UpPacket(p) && Readable(l) && S.Publishes(p) == |Carried(p)|
    requires l'.up == l.up + Encode(p) && l'.sink == l.sink
    ensures OnTheWay(l') == OnTheWay(l) + Carried(p) && Readable(l')
  {
    WritePacket(l, p);
    assert InUp(l') == InUp(l.(up := l.up + Encode(p)));
    MessagesOneMore(InUp(l).frames, p);
  }

  lemma PublishCarries(l: Link, payload: seq<byte>, qos: nat, raises: bool)
    requires Sound(l) && Readable(l) && (!raises ==> Fits(l.client.topic, payload))
    ensures var e := Publish(payload, qos, raises);
      OnTheWay(Next(l, e)) == OnTheWay(l) + Out(l, e) && Readable(Next(l, e))
  {
    var e, c := Publish(payload, qos, raises), l.client;
    var l' := Next(l, e);
    if Out(l, e) == [] {
      assert l.up + [] == l.up;
      assert InUp(l') == InUp(l) && OnTheWay(l) + [] == OnTheWay(l);
    } else {
      PublishIsUpPacket(c.topic, NextPid(c.pid), payload);
      var p := if qos == 0 then PublishQos0(c.topic, payload) else PublishQos1(c.topic, NextPid(c.pid), payload);
      PublishReadsBack(c.topic, NextPid(c.pid), payload);
      Written(l, p, l');
    }
  }

  lemma PingCarries(l: Link)
    requires Sound(l) && Readable(l)
    ensures OnTheWay(Next(l, Ping)) == OnTheWay(l) && Readable(Next(l, Ping))
  {
    if l.client.connected {
      Written(l, PINGREQ, Next(l, Ping));
    }
  }

  /** What the sink takes off the channel is what was first on the way, and it counts it. */
  lemma CarryUpCarries(l: Link, n: nat)
    requires Sound(l) && Readable(l)
    ensures var l' := Next(l, CarryUp(n));
      && OnTheWay(l) == In(l, CarryUp(n)) + OnTheWay(l') && Readable(l')
      && l'.sink.counted == l.sink.counted + |In(l, CarryUp(n))|
  {
    var k := Min(n, |l.up|);
    var now := Take(PACKETS, l.sink.buf + l.up[..k]);
    var next := Take(PACKETS, now.rest + l.up[k..]);
    UpParts(l, k, now, next);
    assert InUp(Next(l, CarryUp(n))) == next;
    assert forall p | p in now.frames :: p in InUp(l).frames;
    assert forall p | p in next.frames :: p in InUp(l).frames;
    FlatMapAppend(Carried, now.frames, next.frames);
    ReadableMeansCounted(now.frames);
  }

  /** Each step: what was on the way and what is published is what is decoded and what is on the way. */
  lemma StepCarries(l: Link, e: Event)
    requires Sound(l) && Readable(l) && Sendable(l.client.topic, e)
    ensures Readable(Next(l, e)) && OnTheWay(l) + Out(l, e) == In(l, e) + OnTheWay(Next(l, e))
    ensures Next(l, e).sink.counted == l.sink.counted + |In(l, e)|
  {
    assert OnTheWay(l) + [] == OnTheWay(l) == [] + OnTheWay(l);
    match e
    case Publish(payload, qos, raises) => PublishCarries(l, payload, qos, raises);
    case Ping => PingCarries(l);
    case CarryUp(n) => CarryUpCarries(l, n);
    case CarryDown(n) => assert InUp(Next(l, e)) == InUp(l);
  }

  /**
    For every interleaving and every cut: the messages decoded by the sink, followed by those on the way,
    are those that were on the way at the start, followed by those published, in that order, with the topics
    and payloads they were published with.
   */
  lemma {:induction false} MessagesArriveInOrder(l: Link, es: seq<Event>)
    requires Sound(l) && Readable(l)
    requires forall e | e in es :: Sendable(l.client.topic, e)
    ensures Sound(Run(l, es)) && Readable(Run(l, es))
    ensures OnTheWay(l) + PublishedIn(l, es) == DecodedIn(l, es) + OnTheWay(Run(l, es))
    ensures Run(l, es).sink.counted == l.sink.counted + |DecodedIn(l, es)|
    decreases |es|
  {
    if es == [] {
      assert OnTheWay(l) + [] == OnTheWay(l) == [] + OnTheWay(l);
    } else {
      var e, rest := es[0], es[1..];
      StepIsSound(l, e);
      TopicIsFixed(l, e);
      StepCarries(l, e);
      MessagesArriveInOrder(Next(l, e), rest);
      Regroup(OnTheWay(l), Out(l, e), In(l, e), OnTheWay(Next(l, e)), PublishedIn(Next(l, e), rest),
              DecodedIn(Next(l, e), rest), OnTheWay(Run(l, es)));
    }
  }

  lemma Regroup(was: seq<Message>, out: seq<Message>, in': seq<Message>, mid: seq<Message>, more: seq<Message>,
                later: seq<Message>, left: seq<Message>)
    requires was + out == in' + mid && mid + more == later + left
    ensures was + (out + more) == (in' + later) + left
  {
    Associative(was, out, more);
    Associative(in', mid, more);
    Associative(in', later, left);
  }

  /** From a written CONNECT on, published is decoded and on the way; once delivered, it is decoded. */
  lemma PublishedIsDecoded(topic: Topic, connect: Packet, es: seq<Event>)
    requires connect.hdr == 0x10 && |connect.body| < MAX_REMAINING
    requires forall e | e in es :: Sendable(topic, e)
    ensures var l := Opened(topic, connect);
      && PublishedIn(l, es) == DecodedIn(l, es) + OnTheWay(Run(l, es))
      && Run(l, es).sink.counted == |DecodedIn(l, es)|
      && (Run(l, es).up == [] ==> PublishedIn(l, es) == DecodedIn(l, es))
  {
    var l := Opened(topic, connect);
    OpenedIsSound(topic, connect);
    EncodedPacketIsTaken(connect);
    assert [] + l.up == l.up;
    Singleton(Carried, connect);
    MessagesArriveInOrder(l, es);
    assert [] + PublishedIn(l, es) == PublishedIn(l, es);
    if Run(l, es).up == [] {
      assert Run(l, es).sink.buf + [] == Run(l, es).sink.buf;
      assert DecodedIn(l, es) + [] == DecodedIn(l, es);
    }
  }
}
