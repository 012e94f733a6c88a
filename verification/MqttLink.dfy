/**
  One device end to end: the publisher, the sink and the two byte channels between them, as steps
  of one transition system. TCP may deliver any number of bytes at a time in either direction.
 */
module MqttLink {
  import opened Wrappers
  import opened Framing
  import opened Sequences
  import opened Numbers
  import opened MqttCodec
  import opened MqttClient
  import S = MqttSink

  /**
    `up` and `down` hold the bytes written but not yet delivered. The counters are history: QoS 1
    publishes put on the wire, QoS 0 publishes, refused publishes, QoS 1 publishes whose write raised,
    and `on_puback` callbacks.
   */
  datatype Link = Link(
    client: Client,
    sink: S.Sink,
    up: seq<byte>,
    down: seq<byte>,
    published: nat,
    fired: nat,
    refused: nat,
    raised: nat,
    acked: nat)

  /** `raises` says whether writing the packet to the transport raises, if it comes to that. */
  datatype Event =
    | Publish(payload: seq<byte>, qos: nat, raises: bool)
    | Ping
    | CarryUp(n: nat)
    | CarryDown(n: nat)

  /** A connection whose CONNECT packet has just been written. */
  function Opened(topic: Topic, connect: Packet): Link {
    Link(FreshClient(topic), S.FRESH_SINK, Encode(connect), [], 0, 0, 0, 0, 0)
  }

  /** Dispatch and the ping loop act only on a connected client; a channel delivers what it holds. */
  function Next(l: Link, e: Event): Link {
    match e
    case Publish(payload, qos, raises) =>
      if !l.client.connected then l
      else if raises && Writes(l.client, qos) then
        l.(client := RaiseStep(l.client, qos), raised := l.raised + (if qos == 0 then 0 else 1))
      else
      var sent := PublishStep(l.client, payload, qos);
      l.(client := sent.client, up := l.up + sent.bytes,
         fired := l.fired + (if qos == 0 then 1 else 0),
         refused := l.refused + (if sent.result < 0 then 1 else 0),
         published := l.published + (if sent.result > 0 then 1 else 0))
    case Ping =>
      if l.client.connected then l.(up := l.up + Encode(PINGREQ)) else l
    case CarryUp(n) =>
      var k := Min(n, |l.up|);
      var d := S.Receive(l.sink, l.up[..k]);
      l.(sink := d.sink, up := l.up[k..], down := l.down + d.out)
    case CarryDown(n) =>
      var k := Min(n, |l.down|);
      var h := Receive(l.client, l.down[..k]);
      l.(client := h.client, down := l.down[k..], acked := l.acked + h.acks)
  }

  function Run(l: Link, es: seq<Event>): Link
    decreases |es|
  {
    if es == [] then l else Run(Next(l, es[0]), es[1..])
  }

  // ---- what is in flight ----

  function InUp(l: Link): Scan<Packet> { Take(PACKETS, l.sink.buf + l.up) }

  function InDown(l: Link): Scan<Packet> { Take(PACKETS, l.client.buf + l.down) }

  /** The identifier the sink will acknowledge when it handles this packet. */
  function PubPid(p: Packet): seq<nat> {
    if p.hdr / 16 == 3 && p.hdr / 2 % 4 == 1 && |p.body| >= 2 then
      var offset := 2 + FromTwoBytes(p.body[0], p.body[1]);
      if |p.body| >= offset + 2 then [FromTwoBytes(p.body[offset], p.body[offset + 1])] else []
    else []
  }

  /** Identifiers in undelivered PUBACK bytes, then those in undelivered PUBLISH bytes: oldest first. */
  function Outstanding(l: Link): seq<nat> {
    FlatMap(AckedPid, InDown(l).frames) + FlatMap(PubPid, InUp(l).frames)
  }

  ghost predicate UpPacket(p: Packet) {
    && |p.body| < MAX_REMAINING
    && p.hdr in [0x10, 0x30, 0x32, 0xC0]
    && (p.hdr == 0x32 ==> |PubPid(p)| == 1 && 1 <= PubPid(p)[0] <= 65535)
  }

  ghost predicate DownPacket(p: Packet) {
    || p == CONNACK
    || p == PINGRESP
    || (exists pid: nat | 1 <= pid <= 65535 :: p == Puback(pid))
  }

  /** As long as no identifier was used up in vain, the outstanding ones are a run that ends at `pid`. */
  ghost predicate Consecutive(ids: seq<nat>, pid: nat) {
    && (forall i | 0 <= i < |ids| - 1 :: ids[i + 1] == NextPid(ids[i]))
    && (ids != [] ==> ids[|ids| - 1] == pid)
  }

  /** Both channels hold whole packets of the expected kinds. */
  ghost predicate WellFramed(l: Link) {
    && !l.sink.closed
    && InUp(l).rest == [] && (forall p | p in InUp(l).frames :: UpPacket(p))
    && InDown(l).rest == [] && (forall p | p in InDown(l).frames :: DownPacket(p))
    && !Advances(PACKETS, l.sink.buf) && !Advances(PACKETS, l.client.buf)
  }

  /** `pending` is exactly what is in flight, each identifier once, and no packet is lost or made up. */
  ghost predicate Accounted(l: Link) {
    && NoDuplicates(Outstanding(l)) && Elements(Outstanding(l)) == l.client.pending
    && (forall id | id in Outstanding(l) :: 1 <= id <= 65535)
    && l.acked + |Outstanding(l)| == l.published
    && l.sink.counted + S.PublishCount(InUp(l).frames) == l.published + l.fired
    && (l.refused + l.raised == 0 ==> Consecutive(Outstanding(l), l.client.pid))
  }

  ghost predicate Sound(l: Link) {
    WellFramed(l) && Accounted(l)
  }

  /** A payload whose PUBLISH keeps its remaining length below 2^28 (section 2.2.3). */
  predicate Fits(topic: Topic, payload: seq<byte>) {
    4 + |topic| + |payload| < MAX_REMAINING
  }

  ghost predicate Sendable(topic: Topic, e: Event) {
    e.Publish? && !e.raises ==> Fits(topic, e.payload)
  }

  // ---- facts about packets ----

  lemma Singleton<A, B>(f: A -> seq<B>, a: A)
    ensures FlatMap(f, [a]) == f(a)
  {
    assert [a][1..] == [];
    assert FlatMap(f, [a]) == f(a) + FlatMap(f, []);
  }

  /** Bytes of whole packets behind a stream of whole packets. */
  lemma AppendPackets(stream: seq<byte>, more: seq<byte>)
    requires Take(PACKETS, stream).rest == []
    ensures Take(PACKETS, stream + more) == Scan(Take(PACKETS, stream).frames + Take(PACKETS, more).frames,
      Take(PACKETS, more).rest)
  {
    PacketsAreStable();
    TakeAppend(PACKETS, stream, more);
    assert [] + more == more;
  }

  /** The packets the sink answers a packet of the publisher with. */
  function Answers(p: Packet): seq<Packet> {
    if p.hdr == 0x10 then [CONNACK]
    else if p.hdr == 0xC0 then [PINGRESP]
    else if p.hdr == 0x32 && |PubPid(p)| == 1 then [Packet(0x40, p.body[2 + FromTwoBytes(p.body[0], p.body[1])..][..2])]
    else []
  }

  lemma AnswerOfPacket(p: Packet)
    requires UpPacket(p)
    ensures S.Reply(p) == EncodeAll(Answers(p)) && !S.IsDisconnect(p)
    ensures forall q | q in Answers(p) :: DownPacket(q)
    ensures FlatMap(AckedPid, Answers(p)) == PubPid(p)
  {
    if p.hdr == 0x32 {
      var offset := 2 + FromTwoBytes(p.body[0], p.body[1]);
      var id := p.body[offset..][..2];
      assert id == p.body[offset..offset + 2] && id[0] == p.body[offset] && id[1] == p.body[offset + 1];
      var pid := PubPid(p)[0];
      assert TwoBytes(pid) == id;
      assert Answers(p) == [Puback(pid)];
      Singleton(AckedPid, Packet(0x40, id));
      Singleton(Encode, Packet(0x40, id));
    } else if p.hdr == 0x10 {
      Singleton(Encode, CONNACK);
      Singleton(AckedPid, CONNACK);
    } else if p.hdr == 0xC0 {
      Singleton(Encode, PINGRESP);
      Singleton(AckedPid, PINGRESP);
    }
  }

  lemma {:induction false} AnswersOfStream(ps: seq<Packet>)
    requires forall p | p in ps :: UpPacket(p)
    ensures S.Replies(ps) == EncodeAll(FlatMap(Answers, ps)) && S.DisconnectFree(ps)
    ensures forall q | q in FlatMap(Answers, ps) :: DownPacket(q)
    ensures FlatMap(AckedPid, FlatMap(Answers, ps)) == FlatMap(PubPid, ps)
  {
    if ps != [] {
      AnswerOfPacket(ps[0]);
      AnswersOfStream(ps[1..]);
      FlatMapAppend(Encode, Answers(ps[0]), FlatMap(Answers, ps[1..]));
      FlatMapAppend(AckedPid, Answers(ps[0]), FlatMap(Answers, ps[1..]));
    }
  }

  lemma PublishIsUpPacket(topic: Topic, pid: nat, payload: seq<byte>)
    requires 1 <= pid <= 65535 && Fits(topic, payload)
    ensures UpPacket(PublishQos1(topic, pid, payload)) && PubPid(PublishQos1(topic, pid, payload)) == [pid]
    ensures UpPacket(PublishQos0(topic, payload)) && PubPid(PublishQos0(topic, payload)) == []
  {
    var body := PublishQos1(topic, pid, payload).body;
    assert body == TwoBytes(|topic|) + (topic + (TwoBytes(pid) + payload));
    assert body[0] == TwoBytes(|topic|)[0] && body[1] == TwoBytes(|topic|)[1];
    TwoBytesRoundTrip(|topic|);
    assert body[2 + |topic|] == TwoBytes(pid)[0] && body[3 + |topic|] == TwoBytes(pid)[1];
    TwoBytesRoundTrip(pid);
  }

  // ---- facts about identifiers ----

  lemma SplitDistinct(a: seq<nat>, b: seq<nat>)
    requires NoDuplicates(a + b)
    ensures NoDuplicates(a) && NoDuplicates(b) && Elements(a + b) == Elements(a) + Elements(b)
      && Elements(a) !! Elements(b)
  {
    var s := a + b;
    assert forall i | 0 <= i < |a| :: s[i] == a[i];
    assert forall i | 0 <= i < |b| :: s[|a| + i] == b[i];
  }

  lemma AbsorbOneAck(c: Client, p: Packet)
    requires Elements(AckedPid(p)) <= c.pending
    ensures var h := Absorb(c, p);
      && h.acks == |AckedPid(p)| && h.client.pending == c.pending - Elements(AckedPid(p))
      && h.client.pid == c.pid && h.client.topic == c.topic
  {
    if AckedPid(p) != [] {
      assert AckedPid(p)[0] in Elements(AckedPid(p));
      assert Elements(AckedPid(p)) == {AckedPid(p)[0]};
    } else {
      assert c.pending - {} == c.pending;
    }
  }

  /** Acknowledging distinct pending identifiers takes exactly those out, one callback each. */
  lemma {:induction false} AbsorbAcks(c: Client, ps: seq<Packet>)
    requires NoDuplicates(FlatMap(AckedPid, ps)) && Elements(FlatMap(AckedPid, ps)) <= c.pending
    ensures var h := AbsorbAll(c, ps);
      && h.acks == |FlatMap(AckedPid, ps)|
      && h.client.pending == c.pending - Elements(FlatMap(AckedPid, ps))
      && h.client.pid == c.pid && h.client.topic == c.topic
    decreases |ps|
  {
    if ps != [] {
      var head, tail := AckedPid(ps[0]), FlatMap(AckedPid, ps[1..]);
      assert FlatMap(AckedPid, ps) == head + tail;
      SplitDistinct(head, tail);
      AbsorbOneAck(c, ps[0]);
      AbsorbAcks(Absorb(c, ps[0]).client, ps[1..]);
    }
  }

  lemma {:induction false} CyclicRun(ids: seq<nat>, i: nat)
    requires i < |ids| && 1 <= ids[0] <= 65535
    requires forall k | 0 <= k < |ids| - 1 :: ids[k + 1] == NextPid(ids[k])
    ensures ids[i] == (ids[0] - 1 + i) % 65535 + 1
  {
    if i > 0 {
      CyclicRun(ids, i - 1);
      assert ids[i - 1 + 1] == NextPid(ids[i - 1]);
    }
  }

  lemma {:induction false} Bounded(s: set<nat>, n: nat)
    requires forall x | x in s :: 1 <= x <= n
    ensures |s| <= n
    decreases n
  {
    if n == 0 {
      assert s == {};
    } else {
      Bounded(s - {n}, n - 1);
    }
  }

  // ---- the invariant ----

  lemma OpenedIsSound(topic: Topic, connect: Packet)
    requires connect.hdr == 0x10 && |connect.body| < MAX_REMAINING
    ensures Sound(Opened(topic, connect))
  {
    var l := Opened(topic, connect);
    assert [] + l.up == l.up && l.client.buf + l.down == [];
    EncodedPacketIsTaken(connect);
    Singleton(PubPid, connect);
    assert Outstanding(l) == [];
    assert S.PublishCount([connect]) == 0 by { assert [connect][1..] == []; }
  }

  /** Writing one packet to the sink appends it to what is in flight and changes nothing else there. */
  lemma WritePacket(l: Link, p: Packet)
    requires WellFramed(l) && UpPacket(p)
    ensures var l' := l.(up := l.up + Encode(p));
      && WellFramed(l')
      && InUp(l').frames == InUp(l).frames + [p]
      && Outstanding(l') == Outstanding(l) + PubPid(p)
      && S.PublishCount(InUp(l').frames) == S.PublishCount(InUp(l).frames) + S.Publishes(p)
  {
    Associative(l.sink.buf, l.up, Encode(p));
    AppendPackets(l.sink.buf + l.up, Encode(p));
    EncodedPacketIsTaken(p);
    FlatMapAppend(PubPid, InUp(l).frames, [p]);
    Singleton(PubPid, p);
    Associative(FlatMap(AckedPid, InDown(l).frames), FlatMap(PubPid, InUp(l).frames), PubPid(p));
    S.PublishCountAppend(InUp(l).frames, [p]);
    assert [p][1..] == [] && S.PublishCount([p]) == S.Publishes(p);
  }

  lemma PingIsSound(l: Link)
    requires Sound(l)
    ensures Sound(l.(up := l.up + Encode(PINGREQ)))
  {
    WritePacket(l, PINGREQ);
    assert Outstanding(l) + [] == Outstanding(l);
  }

  lemma OneMoreId(ids: seq<nat>, last: nat, id: nat)
    requires NoDuplicates(ids) && id !in Elements(ids) && id == NextPid(last)
    ensures NoDuplicates(ids + [id]) && Elements(ids + [id]) == Elements(ids) + {id}
    ensures Consecutive(ids, last) ==> Consecutive(ids + [id], id)
  {
    var more := ids + [id];
    assert forall i | 0 <= i < |ids| :: more[i] == ids[i] && ids[i] in Elements(ids);
  }

  /** A QoS 1 publish that goes out. */
  lemma SentPublishIsSound(l: Link, payload: seq<byte>)
    requires Sound(l) && Fits(l.client.topic, payload) && NextPid(l.client.pid) !in l.client.pending
    ensures var pid := NextPid(l.client.pid);
      Sound(l.(client := l.client.(pid := pid, pending := l.client.pending + {pid}),
               up := l.up + Encode(PublishQos1(l.client.topic, pid, payload)),
               published := l.published + 1))
  {
    var c, pid := l.client, NextPid(l.client.pid);
    var p := PublishQos1(c.topic, pid, payload);
    PublishIsUpPacket(c.topic, pid, payload);
    WritePacket(l, p);
    PidTaken(l, l.(up := l.up + Encode(p)), pid);
  }

  lemma PidTaken(l: Link, written: Link, pid: nat)
    requires Accounted(l) && pid == NextPid(l.client.pid) && pid !in l.client.pending
    requires WellFramed(written) && written == l.(up := written.up) && Outstanding(written) == Outstanding(l) + [pid]
    requires S.PublishCount(InUp(written).frames) == S.PublishCount(InUp(l).frames) + 1
    ensures Sound(written.(client := l.client.(pid := pid, pending := l.client.pending + {pid}),
      published := l.published + 1))
  {
    OneMoreId(Outstanding(l), l.client.pid, pid);
    var l' := written.(client := l.client.(pid := pid, pending := l.client.pending + {pid}),
                       published := l.published + 1);
    assert InDown(l') == InDown(written) && InUp(l') == InUp(written);
  }

  /** Nothing is written; at most the identifier moves on, and that is counted. */
  lemma NothingWritten(l: Link, l': Link)
    requires Sound(l) && l'.client == l.client.(pid := l'.client.pid)
    requires l' == l.(client := l'.client, refused := l'.refused, raised := l'.raised)
    requires l' == l || l'.refused + l'.raised > 0
    ensures Sound(l')
  {
    assert InUp(l') == InUp(l) && InDown(l') == InDown(l);
  }

  lemma SentPublishQos0IsSound(l: Link, payload: seq<byte>)
    requires Sound(l) && Fits(l.client.topic, payload)
    ensures Sound(l.(up := l.up + Encode(PublishQos0(l.client.topic, payload)), fired := l.fired + 1))
  {
    var p := PublishQos0(l.client.topic, payload);
    PublishIsUpPacket(l.client.topic, 1, payload);
    WritePacket(l, p);
    OneMoreFired(l, l.(up := l.up + Encode(p)));
  }

  lemma OneMoreFired(l: Link, written: Link)
    requires Accounted(l) && WellFramed(written) && written == l.(up := written.up)
      && Outstanding(written) == Outstanding(l) + []
    requires S.PublishCount(InUp(written).frames) == S.PublishCount(InUp(l).frames) + 1
    ensures Sound(written.(fired := l.fired + 1))
  {
    var l' := written.(fired := l.fired + 1);
    assert InDown(l') == InDown(written) && InUp(l') == InUp(written);
    assert Outstanding(l) + [] == Outstanding(l);
  }

  lemma PublishIsSound(l: Link, payload: seq<byte>, qos: nat, raises: bool)
    requires Sound(l) && l.client.connected && (!raises ==> Fits(l.client.topic, payload))
    ensures Sound(Next(l, Publish(payload, qos, raises)))
  {
    var c := l.client;
    var l' := Next(l, Publish(payload, qos, raises));
    if !Writes(c, qos) {
      assert l.up + [] == l.up;
      NothingWritten(l, l');
    } else if raises {
      NothingWritten(l, l');
    } else if qos == 0 {
      SentPublishQos0IsSound(l, payload);
    } else {
      SentPublishIsSound(l, payload);
    }
  }

  /** A receiver with `buf` buffered takes `head` now and `tail` later. */
  lemma SplitChannel(buf: seq<byte>, head: seq<byte>, tail: seq<byte>)
    ensures var now := Take(PACKETS, buf + head);
      var next := Take(PACKETS, now.rest + tail);
      Take(PACKETS, buf + (head + tail)) == Scan(now.frames + next.frames, next.rest)
  {
    PacketsAreStable();
    TakeAppend(PACKETS, buf + head, tail);
    Associative(buf, head, tail);
  }

  /** What the sink makes of the first `k` bytes of its channel. */
  lemma UpParts(l: Link, k: nat, now: Scan<Packet>, next: Scan<Packet>)
    requires Sound(l) && k <= |l.up|
    requires now == Take(PACKETS, l.sink.buf + l.up[..k]) && next == Take(PACKETS, now.rest + l.up[k..])
    ensures InUp(l) == Scan(now.frames + next.frames, next.rest) && !Advances(PACKETS, now.rest)
    ensures S.Receive(l.sink, l.up[..k]) == S.Digest(l.sink, now)
  {
    assert l.up == l.up[..k] + l.up[k..];
    SplitChannel(l.sink.buf, l.up[..k], l.up[k..]);
    assert forall p | p in now.frames :: p in InUp(l).frames;
    AnswersOfStream(now.frames);
    S.ReceiveIsPacketwise(l.sink, l.up[..k]);
  }

  lemma CarryUpIsSound(l: Link, n: nat)
    requires Sound(l)
    ensures Sound(Next(l, CarryUp(n)))
  {
    var k := Min(n, |l.up|);
    var now := Take(PACKETS, l.sink.buf + l.up[..k]);
    var next := Take(PACKETS, now.rest + l.up[k..]);
    UpParts(l, k, now, next);
    UpStep(l, l.up[k..], now, next);
  }

  lemma UpStep(l: Link, tail: seq<byte>, now: Scan<Packet>, next: Scan<Packet>)
    requires Sound(l) && InUp(l) == Scan(now.frames + next.frames, next.rest)
    requires next == Take(PACKETS, now.rest + tail) && !Advances(PACKETS, now.rest)
    ensures var d := S.Digest(l.sink, now); Sound(l.(sink := d.sink, up := tail, down := l.down + d.out))
  {
    var d := S.Digest(l.sink, now);
    var l' := l.(sink := d.sink, up := tail, down := l.down + d.out);
    assert forall p | p in now.frames :: p in InUp(l).frames;
    assert forall p | p in next.frames :: p in InUp(l).frames;
    AnswersOfStream(now.frames);
    assert InUp(l') == next;
    AnswersArrive(l, now.frames);
    AnswersCarry(FlatMap(AckedPid, InDown(l).frames), InDown(l).frames, now.frames, next.frames);
    S.PublishCountAppend(now.frames, next.frames);
    Answered(l, l', now, next);
  }

  /** Answers written by the sink are behind what is on its way down. */
  lemma AnswersArrive(l: Link, ps: seq<Packet>)
    requires InDown(l).rest == [] && forall p | p in ps :: UpPacket(p)
    ensures Take(PACKETS, l.client.buf + (l.down + S.Replies(ps))) == Scan(InDown(l).frames + FlatMap(Answers, ps), [])
  {
    var answers := FlatMap(Answers, ps);
    AnswersOfStream(ps);
    Associative(l.client.buf, l.down, EncodeAll(answers));
    AppendPackets(l.client.buf + l.down, EncodeAll(answers));
    StreamRoundTrip(answers);
  }

  /** What was in flight as a PUBLISH is in flight as its acknowledgement, in the same place. */
  lemma AnswersCarry(acked: seq<nat>, down: seq<Packet>, now: seq<Packet>, next: seq<Packet>)
    requires acked == FlatMap(AckedPid, down) && forall p | p in now :: UpPacket(p)
    ensures FlatMap(AckedPid, down + FlatMap(Answers, now)) + FlatMap(PubPid, next) == acked + FlatMap(PubPid,
      now + next)
  {
    AnswersOfStream(now);
    FlatMapAppend(PubPid, now, next);
    FlatMapAppend(AckedPid, down, FlatMap(Answers, now));
    Associative(acked, FlatMap(PubPid, now), FlatMap(PubPid, next));
  }

  lemma Answered(l: Link, l': Link, now: Scan<Packet>, next: Scan<Packet>)
    requires Sound(l) && InUp(l) == Scan(now.frames + next.frames, next.rest) && !Advances(PACKETS, now.rest)
    requires l' == l.(sink := l'.sink, up := l'.up, down := l'.down) && InUp(l') == next
    requires InDown(l') == Scan(InDown(l).frames + FlatMap(Answers, now.frames), [])
    requires forall q | q in FlatMap(Answers, now.frames) :: DownPacket(q)
    requires Outstanding(l') == Outstanding(l) && !l'.sink.closed && l'.sink.buf == now.rest
    requires l'.sink.counted == l.sink.counted + S.PublishCount(now.frames)
    requires S.PublishCount(now.frames + next.frames) == S.PublishCount(now.frames) + S.PublishCount(next.frames)
    ensures Sound(l')
  {
    assert forall p | p in next.frames :: p in InUp(l).frames;
  }

  /** What the client makes of the first `k` bytes of its channel. */
  lemma DownParts(l: Link, k: nat, now: Scan<Packet>, next: Scan<Packet>)
    requires Sound(l) && k <= |l.down|
    requires now == Take(PACKETS, l.client.buf + l.down[..k]) && next == Take(PACKETS, now.rest + l.down[k..])
    ensures InDown(l) == Scan(now.frames + next.frames, next.rest)
    ensures FlatMap(AckedPid, now.frames + next.frames) == FlatMap(AckedPid, now.frames) + FlatMap(AckedPid,
      next.frames)
    ensures var h := Receive(l.client, l.down[..k]);
      && h.acks == |FlatMap(AckedPid, now.frames)|
      && h.client.pending == l.client.pending - Elements(FlatMap(AckedPid, now.frames))
      && h.client.pid == l.client.pid && h.client.buf == now.rest && !Advances(PACKETS, now.rest)
  {
    assert l.down == l.down[..k] + l.down[k..];
    SplitChannel(l.client.buf, l.down[..k], l.down[k..]);
    FlatMapAppend(AckedPid, now.frames, next.frames);
    var gone, later := FlatMap(AckedPid, now.frames), FlatMap(AckedPid, next.frames);
    Associative(gone, later, FlatMap(PubPid, InUp(l).frames));
    SplitDistinct(gone, later + FlatMap(PubPid, InUp(l).frames));
    DeliveredAcks(l.client, l.down[..k], now);
  }

  lemma CarryDownIsSound(l: Link, n: nat)
    requires Sound(l)
    ensures Sound(Next(l, CarryDown(n)))
  {
    DownIsSound(l, Min(n, |l.down|), Next(l, CarryDown(n)));
  }

  lemma DownIsSound(l: Link, k: nat, l': Link)
    requires Sound(l) && k <= |l.down|
    requires var h := Receive(l.client, l.down[..k]);
      l' == l.(client := h.client, down := l.down[k..], acked := l.acked + h.acks)
    ensures Sound(l')
  {
    var now := Take(PACKETS, l.client.buf + l.down[..k]);
    var next := Take(PACKETS, now.rest + l.down[k..]);
    DownParts(l, k, now, next);
    DownStep(l, Receive(l.client, l.down[..k]), l.down[k..], now, next);
  }

  lemma DownStep(l: Link, h: Handled, tail: seq<byte>, now: Scan<Packet>, next: Scan<Packet>)
    requires Sound(l) && InDown(l) == Scan(now.frames + next.frames, next.rest)
      && next == Take(PACKETS, now.rest + tail)
    requires FlatMap(AckedPid, now.frames + next.frames) == FlatMap(AckedPid, now.frames) + FlatMap(AckedPid,
      next.frames)
    requires h.acks == |FlatMap(AckedPid, now.frames)|
    requires h.client.pending == l.client.pending - Elements(FlatMap(AckedPid, now.frames))
    requires h.client.pid == l.client.pid && h.client.buf == now.rest && !Advances(PACKETS, now.rest)
    ensures Sound(l.(client := h.client, down := tail, acked := l.acked + h.acks))
  {
    var l' := l.(client := h.client, down := tail, acked := l.acked + h.acks);
    assert InDown(l') == next && InUp(l') == InUp(l);
    SplitOutstanding(l, l', now.frames, next.frames);
    AckedPrefix(l, l', FlatMap(AckedPid, now.frames), Outstanding(l'));
    SuffixIsFramed(l, l', now.frames, next);
  }

  lemma SplitOutstanding(l: Link, l': Link, now: seq<Packet>, next: seq<Packet>)
    requires InDown(l).frames == now + next && InDown(l').frames == next && InUp(l') == InUp(l)
    requires FlatMap(AckedPid, now + next) == FlatMap(AckedPid, now) + FlatMap(AckedPid, next)
    ensures Outstanding(l) == FlatMap(AckedPid, now) + Outstanding(l')
  {
    Associative(FlatMap(AckedPid, now), FlatMap(AckedPid, next), FlatMap(PubPid, InUp(l).frames));
  }

  lemma SuffixIsFramed(l: Link, l': Link, now: seq<Packet>, next: Scan<Packet>)
    requires WellFramed(l) && InDown(l) == Scan(now + next.frames, next.rest)
    requires InDown(l') == next && InUp(l') == InUp(l) && l'.sink == l.sink && !Advances(PACKETS, l'.client.buf)
    ensures WellFramed(l')
  {
    assert forall p | p in next.frames :: p in InDown(l).frames;
  }

  lemma AckedPrefix(l: Link, l': Link, gone: seq<nat>, left: seq<nat>)
    requires Accounted(l) && Outstanding(l) == gone + left && Outstanding(l') == left
    requires l'.client.pending == l.client.pending - Elements(gone) && l'.client.pid == l.client.pid
    requires l' == l.(client := l'.client, down := l'.down, acked := l.acked + |gone|)
    ensures Accounted(l')
  {
    SplitDistinct(gone, left);
    SuffixIsConsecutive(gone, left, l.client.pid);
    assert forall id | id in left :: id in gone + left;
  }

  /** The client's side of a delivery whose acknowledgements are distinct and pending. */
  lemma DeliveredAcks(c: Client, data: seq<byte>, t: Scan<Packet>)
    requires t == Take(PACKETS, c.buf + data)
    requires NoDuplicates(FlatMap(AckedPid, t.frames)) && Elements(FlatMap(AckedPid, t.frames)) <= c.pending
    ensures var h := Receive(c, data);
      && h.acks == |FlatMap(AckedPid, t.frames)|
      && h.client.pending == c.pending - Elements(FlatMap(AckedPid, t.frames))
      && h.client.pid == c.pid && h.client.topic == c.topic
      && h.client.buf == t.rest && !Advances(PACKETS, t.rest)
  {
    DrainIsPacketwise(c.(buf := c.buf + data));
    AbsorbAcks(c.(buf := t.rest), t.frames);
    AbsorbIgnoresBuffer(c, t.frames, t.rest);
    TakeIsExhaustive(PACKETS, c.buf + data);
  }

  lemma SuffixIsConsecutive(a: seq<nat>, b: seq<nat>, pid: nat)
    ensures Consecutive(a + b, pid) ==> Consecutive(b, pid)
  {
    var s := a + b;
    assert forall i | 0 <= i < |b| :: s[|a| + i] == b[i];
    if Consecutive(s, pid) {
      forall i | 0 <= i < |b| - 1
        ensures b[i + 1] == NextPid(b[i])
      {
        assert s[|a| + i + 1] == NextPid(s[|a| + i]);
      }
    }
  }

  lemma StepIsSound(l: Link, e: Event)
    requires Sound(l) && Sendable(l.client.topic, e)
    ensures Sound(Next(l, e))
  {
    match e
    case Publish(payload, qos, raises) =>
      if l.client.connected { PublishIsSound(l, payload, qos, raises); }
    case Ping => PingIsSound(l);
    case CarryUp(n) => CarryUpIsSound(l, n);
    case CarryDown(n) => CarryDownIsSound(l, n);
  }

  lemma {:induction false} TopicIsFixed(l: Link, e: Event)
    ensures Next(l, e).client.topic == l.client.topic
  {
    if e.CarryDown? {
      var k := Min(e.n, |l.down|);
      DrainIsPacketwise(l.client.(buf := l.client.buf + l.down[..k]));
      AbsorbKeepsTopic(l.client.(buf := Take(PACKETS, l.client.buf + l.down[..k]).rest),
                       Take(PACKETS, l.client.buf + l.down[..k]).frames);
    }
  }

  lemma {:induction false} AbsorbKeepsTopic(c: Client, ps: seq<Packet>)
    ensures AbsorbAll(c, ps).client.topic == c.topic
    decreases |ps|
  {
    if ps != [] {
      AbsorbKeepsTopic(Absorb(c, ps[0]).client, ps[1..]);
    }
  }

  /**
    QoS 1 end to end: for every interleaving of publishes, pings and deliveries, and every way to
    cut both byte streams, the pending identifiers are exactly those in flight, each once.
   */
  lemma {:induction false} PendingIsWhatIsInFlight(l: Link, es: seq<Event>)
    requires Sound(l)
    requires forall e | e in es :: Sendable(l.client.topic, e)
    ensures Sound(Run(l, es))
    decreases |es|
  {
    if es != [] {
      StepIsSound(l, es[0]);
      TopicIsFixed(l, es[0]);
      PendingIsWhatIsInFlight(Next(l, es[0]), es[1..]);
    }
  }

  /** With both channels empty every publish has been acknowledged and counted by the sink. */
  lemma DrainedMeansDone(l: Link)
    requires Sound(l) && l.up == [] && l.down == []
    ensures l.client.pending == {} && l.acked == l.published
    ensures l.sink.counted == l.published + l.fired
    ensures l.sink.buf == [] && l.client.buf == []
  {
    assert l.sink.buf + l.up == l.sink.buf && l.client.buf + l.down == l.client.buf;
    assert Outstanding(l) == [];
  }

  /** Such a state is always two deliveries away. */
  lemma TwoDeliveriesDrain(l: Link)
    requires Sound(l)
    ensures var l1 := Next(l, CarryUp(|l.up|));
      var l2 := Next(l1, CarryDown(|l1.down|));
      && l2.client.pending == {} && l2.acked == l2.published == l.published
      && l2.sink.counted == l.published + l.fired
  {
    var l1 := Next(l, CarryUp(|l.up|));
    CarryUpIsSound(l, |l.up|);
    CarryDownIsSound(l1, |l1.down|);
    DrainedMeansDone(Next(l1, CarryDown(|l1.down|)));
  }

  /**
    As long as no publish was refused and no write raised, a publish is refused exactly if all 65535
    identifiers are outstanding.
   */
  lemma FirstRefusalMeansExhausted(l: Link, payload: seq<byte>, qos: nat)
    requires Sound(l) && l.refused == l.raised == 0
    ensures PublishStep(l.client, payload, qos).result < 0 <==> qos != 0 && |l.client.pending| == 65535
  {
    var ids, pid := Outstanding(l), l.client.pid;
    DistinctCardinality(ids);
    Bounded(l.client.pending, 65535);
    var next := NextPid(pid);
    if next in l.client.pending {
      assert next in Elements(ids) && next in ids;
      assert ids[0] in ids;
      WrapsAround(ids, pid);
    } else if |l.client.pending| == 65535 {
      assert forall x | x in l.client.pending + {next} :: x == next || x in ids;
      Bounded(l.client.pending + {next}, 65535);
    }
  }

  /** A run of identifiers that contains the successor of its last has gone all the way round. */
  lemma WrapsAround(ids: seq<nat>, pid: nat)
    requires Consecutive(ids, pid) && NextPid(pid) in ids && 1 <= ids[0] <= 65535
    ensures |ids| >= 65535
  {
    var j :| 0 <= j < |ids| && ids[j] == NextPid(pid);
    CyclicRun(ids, j);
    CyclicRun(ids, |ids| - 1);
    SameResidue(ids[0] - 1 + j, ids[0] - 1 + |ids|);
  }

  lemma SameResidue(a: nat, b: nat)
    requires a < b && a % 65535 + 1 == NextPid((b - 1) % 65535 + 1)
    ensures b - a >= 65535
  {
    assert ((b - 1) % 65535 + 1) % 65535 == b % 65535;
  }
}
