/**
  The calibration sink: it answers CONNECT, QoS 1 PUBLISH, PINGREQ and SUBSCRIBE, counts PUBLISH
  packets, and hangs up on DISCONNECT.
 */
module MqttSink {
  import opened Wrappers
  import opened Framing
  import opened MqttCodec

  predicate IsDisconnect(p: Packet) { p.hdr / 16 == 14 }

  /** The bytes the sink sends back for one packet. */
  function Reply(p: Packet): seq<byte> {
    var kind := p.hdr / 16;
    if kind == 3 then
      if p.hdr / 2 % 4 == 1 && |p.body| >= 2 then
        var pidOffset := 2 + FromTwoBytes(p.body[0], p.body[1]);
        if |p.body| >= pidOffset + 2 then [0x40, 0x02] + p.body[pidOffset..pidOffset + 2] else []
      else []
    else if kind == 1 then [0x20, 0x02, 0x00, 0x00]
    else if kind == 12 then [0xD0, 0x00]
    else if kind == 8 && |p.body| >= 2 then [0x90, 0x03] + p.body[0..2] + [0x01]
    else []
  }

  /**
    The answers by the standard: CONNACK, PINGRESP, SUBACK with QoS 1 granted, and for a PUBLISH with QoS 1
    the PUBACK of its identifier; nothing for any other packet, nor for one that cannot be read.
   */
  lemma ReplyIsThePacket(p: Packet)
    ensures Reply(p) ==
      match p.hdr / 16
      case 1 => Encode(CONNACK)
      case 12 => Encode(PINGRESP)
      case 8 => if |p.body| >= 2 then Encode(Packet(0x90, p.body[..2] + [1])) else []
      case 3 => if ReadPublish(p).Some? && ReadPublish(p).value.qos == 1
        then Encode(Puback(ReadPublish(p).value.pid.value)) else []
      case _ => []
  {
    FixedPacketBytes(0);
    if p.hdr / 16 == 8 && |p.body| >= 2 {
      OneByteLength(3);
      assert Encode(Packet(0x90, p.body[..2] + [1])) == [0x90, 3] + p.body[..2] + [1];
    } else if p.hdr / 16 == 3 && p.hdr / 2 % 4 == 1 && |p.body| >= 2 {
      AnswerHasTheId(p);
    }
  }

  lemma AnswerHasTheId(p: Packet)
    requires p.hdr / 16 == 3 && p.hdr / 2 % 4 == 1 && |p.body| >= 2
    ensures Reply(p) ==
      if ReadPublish(p).Some? then Encode(Puback(ReadPublish(p).value.pid.value)) else []
  {
    var n := 2 + FromTwoBytes(p.body[0], p.body[1]);
    if |p.body| >= n + 2 {
      var s, id := p.body[n..], p.body[n..n + 2];
      assert s[0] == id[0] && s[1] == id[1];
      var pid := FromTwoBytes(id[0], id[1]);
      OneByteLength(2);
      assert TwoBytes(pid) == id && Encode(Puback(pid)) == [0x40, 2] + id;
    }
  }

  function Replies(ps: seq<Packet>): seq<byte> {
    FlatMap(Reply, ps)
  }

  function PublishCount(ps: seq<Packet>): nat {
    if ps == [] then 0 else Publishes(ps[0]) + PublishCount(ps[1..])
  }

  ghost predicate DisconnectFree(ps: seq<Packet>) {
    forall p | p in ps :: !IsDisconnect(p)
  }

  /** What handling one buffer amounts to: replies, publishes, the bytes kept, and the hang-up. */
  datatype Batch = Batch(out: seq<byte>, pubs: nat, rest: seq<byte>, hangUp: bool)

  function Handle(buf: seq<byte>): (b: Batch)
    ensures b.hangUp ==> b.out == [] && b.pubs == 0
    decreases |buf|
  {
    match ParsePacket(buf)
    case None => Batch([], 0, buf, false)
    case Some(Found(p, size)) =>
      if IsDisconnect(p) then
        Batch([], 0, buf[size..], true)
      else
        Behind(Reply(p), Publishes(p), Handle(buf[size..]))
  }

  /** A batch with more gathered in front of it, unless a DISCONNECT in it drops everything. */
  function Behind(out: seq<byte>, pubs: nat, b: Batch): Batch {
    if b.hangUp then b else Batch(out + b.out, pubs + b.pubs, b.rest, false)
  }

  function Publishes(p: Packet): nat { if p.hdr / 16 == 3 then 1 else 0 }

  /** One round of the loop, with `out` and `pubs` gathered before it. */
  lemma HandleStep(buf: seq<byte>, out: seq<byte>, pubs: nat)
    requires ParsePacket(buf).Some?
    ensures var Found(p, size) := ParsePacket(buf).value;
      Behind(out, pubs, Handle(buf))
      == if IsDisconnect(p) then Batch([], 0, buf[size..], true)
         else Behind(out + Reply(p), pubs + Publishes(p), Handle(buf[size..]))
  {
    var Found(p, size) := ParsePacket(buf).value;
    Associative(out, Reply(p), Handle(buf[size..]).out);
  }

  /** One accepted socket: its buffer, what it has counted, and whether the transport is closed. */
  datatype Sink = Sink(buf: seq<byte>, counted: nat, closed: bool)

  const FRESH_SINK := Sink([], 0, false)

  /** The socket after a delivery, and the bytes it has sent because of it. */
  datatype Delivery = Delivery(sink: Sink, out: seq<byte>)

  /** A closed transport is no longer read. */
  function Receive(s: Sink, data: seq<byte>): Delivery {
    if s.closed then Delivery(s, []) else
    var b := Handle(s.buf + data);
    Delivery(Sink(b.rest, s.counted + b.pubs, b.hangUp), b.out)
  }

  function ReceiveAll(s: Sink, chunks: seq<seq<byte>>): Delivery
    decreases |chunks|
  {
    if chunks == [] then Delivery(s, []) else
    var now := Receive(s, chunks[0]);
    var later := ReceiveAll(now.sink, chunks[1..]);
    Delivery(later.sink, now.out + later.out)
  }

  class MqttSinkProtocol {
    var buf: seq<byte>
    var counted: nat       // what this socket has added to its counter
    var written: seq<byte> // every byte handed to the transport
    var closed: bool

    constructor ()
      ensures View() == FRESH_SINK && written == []
    {
      buf, counted, written, closed := [], 0, [], false;
    }

    function View(): Sink
      reads this
    {
      Sink(buf, counted, closed)
    }

    method DataReceived(data: seq<byte>)
      requires !closed
      modifies this
      ensures View() == Receive(old(View()), data).sink
      ensures written == old(written) + Receive(old(View()), data).out
    {
      var b := HandlePackets(buf + data);
      buf, closed := b.rest, b.hangUp;
      if b.out != [] {
        written := written + b.out;
      }
      if b.pubs != 0 {
        counted := counted + b.pubs;
      }
    }

    /** The loop over the buffer; DISCONNECT leaves it early with nothing to send or count. */
    static method HandlePackets(data: seq<byte>) returns (b: Batch)
      ensures b == Handle(data)
    {
      var buf, out: seq<byte>, pubs: nat := data, [], 0;
      while buf != []
        invariant Handle(data) == Behind(out, pubs, Handle(buf))
        decreases |buf|
      {
        var found := ReadPacket(buf);
        if found == None {
          break;
        }
        var Found(p, total) := found.value;
        HandleStep(buf, out, pubs);
        buf := buf[total..];
        if p.hdr / 16 == 14 {
          return Batch([], 0, buf, true);
        }
        var answer := Answer(p.hdr, p.body);
        out := out + answer;
        if p.hdr / 16 == 3 {
          pubs := pubs + 1;
        }
      }
      return Batch(out, pubs, buf, false);
    }

    /** The branches of the loop on the packet type, each with what it appends to the output. */
    static method Answer(hdr: byte, body: seq<byte>) returns (out: seq<byte>)
      ensures out == Reply(Packet(hdr, body))
    {
      out := [];
      var kind := hdr / 16;
      if kind == 3 {
        var qos := hdr / 2 % 4;
        if qos == 1 && |body| >= 2 {
          var pidOff := 2 + FromTwoBytes(body[0], body[1]);
          if |body| >= pidOff + 2 {
            out := [0x40, 0x02] + body[pidOff..pidOff + 2];
          }
        }
      } else if kind == 1 {
        out := [0x20, 0x02, 0x00, 0x00];
      } else if kind == 12 {
        out := [0xD0, 0x00];
      } else if kind == 8 {
        if |body| >= 2 {
          out := [0x90, 0x03] + body[0..2] + [0x01];
        }
      }
    }
  }

  // ---- the callback against the packets of the stream ----

  lemma {:induction false} PublishCountAppend(a: seq<Packet>, b: seq<Packet>)
    ensures PublishCount(a + b) == PublishCount(a) + PublishCount(b)
  {
    if a == [] {
      assert a + b == b;
    } else {
      PublishCountAppend(a[1..], b);
      assert (a + b)[1..] == a[1..] + b;
    }
  }

  /** Without a DISCONNECT, handling a buffer means replying to and counting each of its packets. */
  lemma {:induction false} HandleIsPacketwise(buf: seq<byte>)
    ensures Handle(buf).hangUp <==> !DisconnectFree(Take(PACKETS, buf).frames)
    ensures !Handle(buf).hangUp ==>
      var s := Take(PACKETS, buf); Handle(buf) == Batch(Replies(s.frames), PublishCount(s.frames), s.rest, false)
    decreases |buf|
  {
    assert PACKETS(buf) == ParsePacket(buf);
    if ParsePacket(buf).Some? {
      var p := ParsePacket(buf).value;
      assert Take(PACKETS, buf).frames == [p.frame] + Take(PACKETS, buf[p.size..]).frames;
      HandleIsPacketwise(buf[p.size..]);
    }
  }

  /** The effect of a run of packets, followed by an incomplete one, on a sink that has replied. */
  function Digest(s: Sink, t: Scan<Packet>): Delivery {
    Delivery(Sink(t.rest, s.counted + PublishCount(t.frames), false), Replies(t.frames))
  }

  /** What the sink does with one delivery, and the invariant that its buffer holds no whole packet. */
  lemma ReceiveIsPacketwise(s: Sink, data: seq<byte>)
    requires !s.closed && DisconnectFree(Take(PACKETS, s.buf + data).frames)
    ensures Receive(s, data) == Digest(s, Take(PACKETS, s.buf + data))
    ensures !Advances(PACKETS, Take(PACKETS, s.buf + data).rest)
  {
    HandleIsPacketwise(s.buf + data);
    TakeIsExhaustive(PACKETS, s.buf + data);
  }

  lemma DigestAppend(s: Sink, now: Scan<Packet>, next: Scan<Packet>)
    ensures Digest(s, Scan(now.frames + next.frames, next.rest))
         == Delivery(Digest(Digest(s, now).sink, next).sink, Digest(s, now).out + Digest(Digest(s, now).sink, next).out)
  {
    FlatMapAppend(Reply, now.frames, next.frames);
    PublishCountAppend(now.frames, next.frames);
  }

  /**
    However a DISCONNECT-free stream is cut, the sink ends with the same buffer and the same count
    and has sent the same bytes as if it had arrived in one piece.
   */
  lemma {:induction false} SinkIgnoresChunking(s: Sink, chunks: seq<seq<byte>>)
    requires !s.closed && !Advances(PACKETS, s.buf)
    requires DisconnectFree(Take(PACKETS, s.buf + Concat(chunks)).frames)
    ensures ReceiveAll(s, chunks) == Receive(s, Concat(chunks))
    decreases |chunks|
  {
    if chunks == [] {
      assert s.buf + Concat(chunks) == s.buf;
      ReceiveIsPacketwise(s, Concat(chunks));
    } else {
      var s1 := SplitDelivery(s, chunks[0], Concat(chunks[1..]));
      SinkIgnoresChunking(s1, chunks[1..]);
    }
  }

  /** Two deliveries in place of one. */
  lemma SplitDelivery(s: Sink, a: seq<byte>, b: seq<byte>) returns (s1: Sink)
    requires !s.closed && DisconnectFree(Take(PACKETS, s.buf + (a + b)).frames)
    ensures s1 == Receive(s, a).sink && !s1.closed && !Advances(PACKETS, s1.buf)
    ensures DisconnectFree(Take(PACKETS, s1.buf + b).frames)
    ensures Receive(s, a + b) == Delivery(Receive(s1, b).sink, Receive(s, a).out + Receive(s1, b).out)
  {
    var now := Take(PACKETS, s.buf + a);
    var next := Take(PACKETS, now.rest + b);
    Associative(s.buf, a, b);
    PacketsAreStable();
    TakeAppend(PACKETS, s.buf + a, b);
    ReceiveIsPacketwise(s, a + b);
    DisconnectFreeParts(now.frames, next.frames);
    ReceiveIsPacketwise(s, a);
    s1 := Digest(s, now).sink;
    ReceiveIsPacketwise(s1, b);
    DigestAppend(s, now, next);
  }

  lemma DisconnectFreeParts(a: seq<Packet>, b: seq<Packet>)
    requires DisconnectFree(a + b)
    ensures DisconnectFree(a) && DisconnectFree(b)
  {
    assert forall p | p in a :: p in a + b;
    assert forall p | p in b :: p in a + b;
  }

  /** A sink with an empty buffer answers and counts exactly the packets of a stream it is sent. */
  lemma StreamIsAnswered(s: Sink, ps: seq<Packet>)
    requires s.buf == [] && !s.closed && Framable(ps) && DisconnectFree(ps)
    ensures Receive(s, EncodeAll(ps)) == Delivery(Sink([], s.counted + PublishCount(ps), false), Replies(ps))
  {
    var data := EncodeAll(ps);
    var t := Take(PACKETS, s.buf + data);
    assert t == Scan(ps, []) by {
      assert s.buf + data == data;
      StreamRoundTrip(ps);
    }
    ReceiveIsPacketwise(s, data);
    assert Receive(s, data) == Digest(s, t);
  }

  /** A stream of packets with a DISCONNECT in it, delivered in one piece: nothing is sent or counted. */
  lemma DisconnectInOnePiece(before: seq<Packet>, bye: Packet, after: seq<byte>)
    requires Framable(before) && DisconnectFree(before)
    requires IsDisconnect(bye) && |bye.body| < MAX_REMAINING
    ensures Receive(FRESH_SINK, EncodeAll(before) + (Encode(bye) + after)) == Delivery(Sink(after, 0, true), [])
  {
    EmptyBuffer(EncodeAll(before) + (Encode(bye) + after));
    HandleHangsUp(before, bye, after);
  }

  /** The DISCONNECT of section 3.14, byte by byte. */
  lemma DisconnectBytes()
    ensures Receive(FRESH_SINK, [0xE0, 0x00]) == Delivery(Sink([], 0, true), [])
  {
    var bye := Packet(0xE0, []);
    OneByteLength(0);
    assert EncodeAll([]) + (Encode(bye) + []) == [0xE0, 0x00];
    DisconnectInOnePiece([], bye, []);
  }

  /** The same stream cut before the DISCONNECT: everything before it is answered and counted. */
  lemma DisconnectInTwoPieces(before: seq<Packet>, bye: Packet, after: seq<byte>)
    requires Framable(before) && DisconnectFree(before)
    requires IsDisconnect(bye) && |bye.body| < MAX_REMAINING
    ensures ReceiveAll(FRESH_SINK, [EncodeAll(before), Encode(bye) + after])
         == Delivery(Sink(after, PublishCount(before), true), Replies(before))
  {
    var head, tail := EncodeAll(before), Encode(bye) + after;
    ReceiveTwice(FRESH_SINK, head, tail);
    var s1 := Sink([], PublishCount(before), false);
    StreamIsAnswered(FRESH_SINK, before);
    assert Replies(before) + [] == Replies(before);
    assert Receive(s1, tail) == Delivery(Sink(after, s1.counted, true), []) by {
      EmptyBuffer(tail);
      HandleHangsUp([], bye, after);
    }
  }

  // ---- which cuts of a stream with a DISCONNECT matter ----

  /** The same bytes sent and the same count; the bytes left over behind a DISCONNECT do depend on the cut. */
  predicate SameEffect(a: Delivery, b: Delivery) { a.out == b.out && a.sink.counted == b.sink.counted }

  /** Packets that are neither answered nor counted. */
  ghost predicate Silent(ps: seq<Packet>) {
    forall p | p in ps :: Reply(p) == [] && Publishes(p) == 0
  }

  lemma {:induction false} SilentMeansNothing(ps: seq<Packet>)
    ensures Silent(ps) <==> Replies(ps) == [] && PublishCount(ps) == 0
  {
    if ps != [] {
      SilentMeansNothing(ps[1..]);
      assert ps == [ps[0]] + ps[1..];
    }
  }

  /** The packets that are complete after the first `j` deliveries. */
  function Arrived(s: Sink, chunks: seq<seq<byte>>, j: nat): seq<Packet>
    requires j <= |chunks|
  {
    Take(PACKETS, s.buf + Concat(chunks[..j])).frames
  }

  /** Delivery `j` is the one that completes the first DISCONNECT. */
  ghost predicate HangsUpAt(s: Sink, chunks: seq<seq<byte>>, j: nat) {
    j < |chunks| && DisconnectFree(Arrived(s, chunks, j)) && !DisconnectFree(Arrived(s, chunks, j + 1))
  }

  /** One more delivery adds packets to those that had arrived. */
  lemma ArrivedNext(s: Sink, chunks: seq<seq<byte>>, j: nat)
    requires j < |chunks|
    ensures var t := Take(PACKETS, s.buf + Concat(chunks[..j]));
      Arrived(s, chunks, j + 1) == Arrived(s, chunks, j) + Take(PACKETS, t.rest + chunks[j]).frames
  {
    ConcatNext(chunks, j);
    Associative(s.buf, Concat(chunks[..j]), chunks[j]);
    PacketsAreStable();
    TakeAppend(PACKETS, s.buf + Concat(chunks[..j]), chunks[j]);
  }

  lemma ArrivedOneMore(s: Sink, chunks: seq<seq<byte>>, j: nat)
    requires j < |chunks|
    ensures Arrived(s, chunks, j) <= Arrived(s, chunks, j + 1)
  {
    ArrivedNext(s, chunks, j);
  }

  lemma {:induction false} Growing<T>(f: nat -> seq<T>, i: nat, j: nat)
    requires i <= j && forall k: nat | i <= k < j :: f(k) <= f(k + 1)
    ensures f(i) <= f(j)
    decreases j
  {
    if i < j {
      Growing(f, i, j - 1);
      assert f(j - 1) <= f(j - 1 + 1);
    }
  }

  lemma ArrivedGrows(s: Sink, chunks: seq<seq<byte>>, i: nat, j: nat)
    requires i <= j <= |chunks|
    ensures Arrived(s, chunks, i) <= Arrived(s, chunks, j)
  {
    var f := (k: nat) => if k <= |chunks| then Arrived(s, chunks, k) else [];
    forall k: nat | i <= k < j
      ensures f(k) <= f(k + 1)
    {
      ArrivedOneMore(s, chunks, k);
    }
    Growing(f, i, j);
  }

  lemma {:induction false} ReceiveAllAppend(s: Sink, a: seq<seq<byte>>, b: seq<seq<byte>>)
    ensures var now := ReceiveAll(s, a);
      var later := ReceiveAll(now.sink, b);
      ReceiveAll(s, a + b) == Delivery(later.sink, now.out + later.out)
    decreases |a|
  {
    if a == [] {
      assert a + b == b;
    } else {
      assert (a + b)[0] == a[0] && (a + b)[1..] == a[1..] + b;
      var first := Receive(s, a[0]);
      ReceiveAllAppend(first.sink, a[1..], b);
      Associative(first.out, ReceiveAll(first.sink, a[1..]).out,
                  ReceiveAll(ReceiveAll(first.sink, a[1..]).sink, b).out);
    }
  }

  lemma {:induction false} ClosedIsDeaf(s: Sink, chunks: seq<seq<byte>>)
    requires s.closed
    ensures ReceiveAll(s, chunks) == Delivery(s, [])
    decreases |chunks|
  {
    if chunks != [] {
      ClosedIsDeaf(s, chunks[1..]);
    }
  }

  /** A delivery that completes a DISCONNECT sends and counts nothing, not even for the packets before it. */
  lemma HangUpIsSilent(s: Sink, data: seq<byte>)
    requires !s.closed && !DisconnectFree(Take(PACKETS, s.buf + data).frames)
    ensures var d := Receive(s, data); d.sink.closed && d.out == [] && d.sink.counted == s.counted
  {
    HandleIsPacketwise(s.buf + data);
  }

  lemma NothingAfterHangUp(s: Sink, chunks: seq<seq<byte>>, j: nat)
    requires j < |chunks|
    requires var s1 := ReceiveAll(s, chunks[..j]).sink;
      !s1.closed && !DisconnectFree(Take(PACKETS, s1.buf + chunks[j]).frames)
    ensures var d := ReceiveAll(s, chunks); var d1 := ReceiveAll(s, chunks[..j]);
      d.sink.closed && d.out == d1.out && d.sink.counted == d1.sink.counted
  {
    assert chunks == chunks[..j] + chunks[j..] && chunks[j..] == [chunks[j]] + chunks[j + 1..];
    NothingBehind(s, chunks[..j], chunks[j], chunks[j + 1..], ReceiveAll(s, chunks[..j]));
  }

  lemma NothingBehind(s: Sink, front: seq<seq<byte>>, data: seq<byte>, rest: seq<seq<byte>>, d1: Delivery)
    requires d1 == ReceiveAll(s, front)
    requires !d1.sink.closed && !DisconnectFree(Take(PACKETS, d1.sink.buf + data).frames)
    ensures var d := ReceiveAll(s, front + ([data] + rest));
      d.sink.closed && d.out == d1.out && d.sink.counted == d1.sink.counted
  {
    HangUpIsSilent(d1.sink, data);
    DeafFromHere(d1.sink, data, rest);
    ReceiveAllAppend(s, front, [data] + rest);
  }

  lemma DeafFromHere(s: Sink, data: seq<byte>, rest: seq<seq<byte>>)
    requires Receive(s, data).sink.closed && Receive(s, data).out == []
    ensures ReceiveAll(s, [data] + rest) == Delivery(Receive(s, data).sink, [])
  {
    assert ([data] + rest)[1..] == rest;
    ClosedIsDeaf(Receive(s, data).sink, rest);
  }

  /** However a stream with a DISCONNECT is cut: what is answered and counted is what earlier deliveries completed. */
  lemma EffectOfCut(s: Sink, chunks: seq<seq<byte>>, j: nat)
    requires !s.closed && !Advances(PACKETS, s.buf) && HangsUpAt(s, chunks, j)
    ensures var d := ReceiveAll(s, chunks);
      && d.sink.closed && d.out == Replies(Arrived(s, chunks, j))
      && d.sink.counted == s.counted + PublishCount(Arrived(s, chunks, j))
  {
    SinkIgnoresChunking(s, chunks[..j]);
    ReceiveIsPacketwise(s, Concat(chunks[..j]));
    ArrivedNext(s, chunks, j);
    NothingAfterHangUp(s, chunks, j);
  }

  /**
    With a DISCONNECT in the stream a cut matters exactly when a packet that is answered or counted was
    completed by an earlier delivery than the DISCONNECT: the early return drops what the same callback
    had gathered.
   */
  lemma DisconnectDropsTheBatch(s: Sink, chunks: seq<seq<byte>>, j: nat)
    requires !s.closed && !Advances(PACKETS, s.buf) && HangsUpAt(s, chunks, j)
    ensures SameEffect(ReceiveAll(s, chunks), Receive(s, Concat(chunks))) <==> Silent(Arrived(s, chunks, j))
  {
    EffectOfCut(s, chunks, j);
    ArrivedGrows(s, chunks, j + 1, |chunks|);
    assert chunks[..|chunks|] == chunks;
    HangUpIsSilent(s, Concat(chunks));
    SilentMeansNothing(Arrived(s, chunks, j));
  }

  lemma NothingArrivedYet(s: Sink, chunks: seq<seq<byte>>)
    requires !Advances(PACKETS, s.buf)
    ensures Arrived(s, chunks, 0) == []
  {
    assert s.buf + Concat(chunks[..0]) == s.buf;
  }

  lemma {:induction false} SomeDeliveryHangsUp(s: Sink, chunks: seq<seq<byte>>, n: nat) returns (j: nat)
    requires !Advances(PACKETS, s.buf) && n <= |chunks| && !DisconnectFree(Arrived(s, chunks, n))
    ensures HangsUpAt(s, chunks, j)
    decreases n
  {
    NothingArrivedYet(s, chunks);
    if DisconnectFree(Arrived(s, chunks, n - 1)) {
      j := n - 1;
    } else {
      j := SomeDeliveryHangsUp(s, chunks, n - 1);
    }
  }

  /** The packets in front of the first DISCONNECT. */
  function BeforeDisconnect(ps: seq<Packet>): seq<Packet> {
    if ps == [] || IsDisconnect(ps[0]) then [] else [ps[0]] + BeforeDisconnect(ps[1..])
  }

  lemma {:induction false} FreePrefixIsBefore(a: seq<Packet>, ps: seq<Packet>)
    requires a <= ps && DisconnectFree(a)
    ensures a <= BeforeDisconnect(ps)
  {
    if a != [] {
      assert a[0] in a;
      assert forall p | p in a[1..] :: p in a;
      FreePrefixIsBefore(a[1..], ps[1..]);
    }
  }

  lemma {:induction false} BeforeIsFreePrefix(ps: seq<Packet>)
    ensures BeforeDisconnect(ps) <= ps && DisconnectFree(BeforeDisconnect(ps))
  {
    if ps != [] && !IsDisconnect(ps[0]) {
      BeforeIsFreePrefix(ps[1..]);
    }
  }

  /** A buffer can be cut behind any number of its packets. */
  lemma {:induction false} CutBehind(buf: seq<byte>, m: nat) returns (n: nat)
    requires m <= |Take(PACKETS, buf).frames|
    ensures n <= |buf| && Take(PACKETS, buf[..n]) == Scan(Take(PACKETS, buf).frames[..m], [])
    decreases |buf|
  {
    if m == 0 {
      n := 0;
    } else {
      var found := ParsePacket(buf).value;
      var k := CutBehind(buf[found.size..], m - 1);
      n := found.size + k;
      assert buf[..n][found.size..] == buf[found.size..][..k];
      HeadIsWhole(buf, n);
    }
  }

  lemma HeadIsWhole(buf: seq<byte>, n: nat)
    requires ParsePacket(buf).Some? && ParsePacket(buf).value.size <= n <= |buf|
    ensures ParsePacket(buf[..n]) == ParsePacket(buf)
  {
    var i := RemainingLength(buf, 1, 4).end;
    var total := ParsePacket(buf).value.size;
    DecodeVarintShortens(buf[1..], n - 1, 4);
    assert buf[..n][1..] == buf[1..][..n - 1] && buf[..n][i..total] == buf[i..total];
  }

  /** All cuts of a stream agree exactly if it has no DISCONNECT, or nothing before the first is answered or counted. */
  lemma AllCutsAgree(s: Sink, data: seq<byte>)
    requires !s.closed && !Advances(PACKETS, s.buf)
    ensures var ps := Take(PACKETS, s.buf + data).frames;
      (forall chunks | Concat(chunks) == data :: SameEffect(ReceiveAll(s, chunks), Receive(s, data)))
      <==> DisconnectFree(ps) || Silent(BeforeDisconnect(ps))
  {
    var ps := Take(PACKETS, s.buf + data).frames;
    if DisconnectFree(ps) {
      forall chunks | Concat(chunks) == data
        ensures SameEffect(ReceiveAll(s, chunks), Receive(s, data))
      {
        SinkIgnoresChunking(s, chunks);
      }
    } else if Silent(BeforeDisconnect(ps)) {
      forall chunks | Concat(chunks) == data
        ensures SameEffect(ReceiveAll(s, chunks), Receive(s, data))
      {
        SilentCutsAgree(s, chunks);
      }
    } else {
      var a, b := LoudCut(s, data);
      assert Concat([a, b]) == data && !SameEffect(ReceiveAll(s, [a, b]), Receive(s, data));
    }
  }

  lemma SilentCutsAgree(s: Sink, chunks: seq<seq<byte>>)
    requires !s.closed && !Advances(PACKETS, s.buf)
    requires var ps := Take(PACKETS, s.buf + Concat(chunks)).frames; !DisconnectFree(ps) && Silent(BeforeDisconnect(ps))
    ensures SameEffect(ReceiveAll(s, chunks), Receive(s, Concat(chunks)))
  {
    assert chunks[..|chunks|] == chunks;
    var j := SomeDeliveryHangsUp(s, chunks, |chunks|);
    ArrivedGrows(s, chunks, j, |chunks|);
    FreePrefixIsBefore(Arrived(s, chunks, j), Arrived(s, chunks, |chunks|));
    DisconnectDropsTheBatch(s, chunks, j);
  }

  lemma CutIsBehindTheBuffer(buf: seq<byte>, data: seq<byte>, n: nat)
    requires !Advances(PACKETS, buf) && n <= |buf + data| && Take(PACKETS, (buf + data)[..n]).frames != []
    ensures n >= |buf|
  {
    if n < |buf| {
      assert (buf + data)[..n] == buf[..n] && buf[..n] + buf[n..] == buf;
      PacketsAreStable();
      TakeAppend(PACKETS, buf[..n], buf[n..]);
    }
  }

  lemma CutInTwo(s: Sink, a: seq<byte>, b: seq<byte>)
    requires !s.closed && !Advances(PACKETS, s.buf)
    requires DisconnectFree(Take(PACKETS, s.buf + a).frames) && !DisconnectFree(Take(PACKETS, s.buf + (a + b)).frames)
    ensures Concat([a, b]) == a + b
    ensures SameEffect(ReceiveAll(s, [a, b]), Receive(s, a + b)) <==> Silent(Take(PACKETS, s.buf + a).frames)
  {
    var chunks := [a, b];
    assert Concat([a]) == a by { assert [a][1..] == []; }
    assert Concat(chunks) == a + b by { assert chunks[1..] == [b] && [b][1..] == []; }
    assert chunks[..1] == [a] && chunks[..2] == chunks;
    DisconnectDropsTheBatch(s, chunks, 1);
  }

  lemma SplitBehind(buf: seq<byte>, data: seq<byte>, n: nat)
    requires |buf| <= n <= |buf + data|
    ensures data[..n - |buf|] + data[n - |buf|..] == data && buf + data[..n - |buf|] == (buf + data)[..n]
  {
  }

  /** The cut right before the DISCONNECT shows what it drops. */
  lemma LoudCut(s: Sink, data: seq<byte>) returns (a: seq<byte>, b: seq<byte>)
    requires !s.closed && !Advances(PACKETS, s.buf)
    requires var ps := Take(PACKETS, s.buf + data).frames; !DisconnectFree(ps) && !Silent(BeforeDisconnect(ps))
    ensures Concat([a, b]) == data && !SameEffect(ReceiveAll(s, [a, b]), Receive(s, data))
  {
    var all := s.buf + data;
    var before := BeforeDisconnect(Take(PACKETS, all).frames);
    BeforeIsFreePrefix(Take(PACKETS, all).frames);
    var n := CutBehind(all, |before|);
    CutIsBehindTheBuffer(s.buf, data, n);
    var m := n - |s.buf|;
    a, b := data[..m], data[m..];
    SplitBehind(s.buf, data, n);
    CutInTwo(s, a, b);
  }

  lemma EmptyBuffer(data: seq<byte>)
    ensures FRESH_SINK.buf + data == data && EncodeAll([]) + data == data
  {
  }

  lemma ReceiveTwice(s: Sink, a: seq<byte>, b: seq<byte>)
    ensures var now := Receive(s, a);
      var later := Receive(now.sink, b);
      ReceiveAll(s, [a, b]) == Delivery(later.sink, now.out + later.out)
  {
    var now := Receive(s, a);
    var later := Receive(now.sink, b);
    var last := [b];
    assert last[1..] == [] && [a, b][1..] == last && later.out + [] == later.out;
    assert ReceiveAll(later.sink, last[1..]) == Delivery(later.sink, []);
    assert ReceiveAll(now.sink, last) == later;
  }

  lemma {:induction false} HandleHangsUp(before: seq<Packet>, bye: Packet, after: seq<byte>)
    requires Framable(before) && DisconnectFree(before)
    requires IsDisconnect(bye) && |bye.body| < MAX_REMAINING
    ensures Handle(EncodeAll(before) + (Encode(bye) + after)) == Batch([], 0, after, true)
    decreases |before|
  {
    var tail := Encode(bye) + after;
    var buf := EncodeAll(before) + tail;
    if before == [] {
      assert buf == tail;
      PacketRoundTrip(bye, after);
      assert tail[|Encode(bye)|..] == after;
    } else {
      var p, rest := before[0], EncodeAll(before[1..]) + tail;
      assert buf == Encode(p) + rest;
      PacketRoundTrip(p, rest);
      assert buf[|Encode(p)|..] == rest;
      HandleHangsUp(before[1..], bye, after);
    }
  }

  /** Shared-memory counter that is only updated once `flushEvery` increments have gathered. */
  class BatchCounter {
    var shared: nat
    var n: nat
    const flushEvery: nat

    constructor (flushEvery: nat)
      ensures shared == 0 && n == 0 && this.flushEvery == flushEvery
    {
      shared, n, this.flushEvery := 0, 0, flushEvery;
    }

    /** Nothing is lost between the batch and the shared value, and the batch stays small. */
    method Add(k: nat)
      modifies this
      ensures shared + n == old(shared + n) + k
      ensures flushEvery > 0 ==> n < flushEvery
      ensures shared == if old(n) + k >= flushEvery then old(shared + n) + k else old(shared)
    {
      n := n + k;
      if n >= flushEvery {
        shared := shared + n;
        n := 0;
      }
    }

    method Flush()
      modifies this
      ensures shared == old(shared + n) && n == 0
    {
      if n != 0 {
        shared := shared + n;
        n := 0;
      }
    }
  }
}
