/**
  The hand-written publisher: one device, one socket, QoS 1 acknowledgements tracked by packet
  identifier.
 */
module MqttClient {
  import opened Wrappers
  import opened Framing
  import opened MqttCodec

  /** A topic whose length fits its two-byte field; `_mstr` raises for any other. */
  type Topic = t: seq<byte> | |t| < 0x1_0000

  /** `pending` maps identifiers to send times in the program; only the identifiers matter here. */
  datatype Client = Client(
    topic: Topic,
    buf: seq<byte>,
    pid: nat,
    pending: set<nat>,
    connected: bool,
    connackRc: Option<int>,
    closed: bool)

  function FreshClient(topic: Topic): Client {
    Client(topic, [], 0, {}, false, None, false)
  }

  function NextPid(pid: nat): (next: nat)
    ensures 1 <= next <= 65535
  {
    pid % 65535 + 1
  }

  /** Of an identifier, or of the 0 of a fresh connection, the next is the successor, and 1 follows on 65535. */
  lemma NextPidIsTheSuccessor(pid: nat)
    requires pid <= 65535
    ensures NextPid(pid) == if pid == 65535 then 1 else pid + 1
  {
  }

  /** The outcome of `publish`: what it returns and what it hands to the transport. */
  datatype Sent = Sent(client: Client, result: int, bytes: seq<byte>)

  function PublishStep(c: Client, payload: seq<byte>, qos: nat): Sent {
    if qos == 0 then
      Sent(c, 0, Encode(PublishQos0(c.topic, payload)))
    else
      var pid := NextPid(c.pid);
      if pid in c.pending then
        Sent(c.(pid := pid), -1, [])
      else
        Sent(c.(pid := pid, pending := c.pending + {pid}), pid, Encode(PublishQos1(c.topic, pid, payload)))
  }

  /** What a call of `publish` is to tell the broker; a QoS above 1 is sent as 1. */
  function Publishing(topic: Topic, pid: nat, payload: seq<byte>, qos: nat): Publication {
    if qos == 0 then Publication(false, 0, false, topic, None, payload)
    else Publication(false, 1, false, topic, Some(pid), payload)
  }

  /** What goes out is one PUBLISH with the topic of the connection, the identifier, and the payload. */
  lemma PublishStepReadsBack(c: Client, payload: seq<byte>, qos: nat) returns (p: Packet)
    ensures var sent := PublishStep(c, payload, qos);
      if sent.result == -1 then sent.bytes == []
      else sent.bytes == Encode(p) && ReadPublish(p) == Some(Publishing(c.topic, sent.client.pid, payload, qos))
  {
    var pid := NextPid(c.pid);
    p := if qos == 0 then PublishQos0(c.topic, payload) else PublishQos1(c.topic, pid, payload);
    PublishReadsBack(c.topic, pid, payload);
  }

  /** A write that raises: the identifier is used up, and nothing becomes pending. */
  function RaiseStep(c: Client, qos: nat): Client { if qos == 0 then c else c.(pid := NextPid(c.pid)) }

  /** A refused publish writes nothing, so it cannot raise. */
  predicate Writes(c: Client, qos: nat) { qos == 0 || NextPid(c.pid) !in c.pending }

  /** The outcome of handling packets: the `on_puback` callbacks are counted in `acks`. */
  datatype Handled = Handled(client: Client, acks: nat)

  /** The identifier a packet acknowledges, if it is a PUBACK long enough to carry one. */
  function AckedPid(p: Packet): seq<nat> {
    if p.hdr / 16 == 4 && |p.body| >= 2 then [FromTwoBytes(p.body[0], p.body[1])] else []
  }

  function Absorb(c: Client, p: Packet): Handled {
    if p.hdr / 16 == 4 && |p.body| >= 2 then
      var pid := FromTwoBytes(p.body[0], p.body[1]);
      Handled(c.(pending := c.pending - {pid}), if pid in c.pending then 1 else 0)
    else if p.hdr / 16 == 2 then
      var rc: int := if |p.body| >= 2 then p.body[1] as int else -1;
      Handled(c.(connackRc := Some(rc), connected := rc == 0), 0)
    else
      Handled(c, 0)
  }

  function AbsorbAll(c: Client, ps: seq<Packet>): Handled
    decreases |ps|
  {
    if ps == [] then Handled(c, 0) else
    var now := Absorb(c, ps[0]);
    var later := AbsorbAll(now.client, ps[1..]);
    Handled(later.client, now.acks + later.acks)
  }

  /** The receive loop: take a packet off the buffer, act on it, go on until none is complete. */
  function Drain(c: Client): Handled
    decreases |c.buf|
  {
    match ParsePacket(c.buf)
    case None => Handled(c, 0)
    case Some(Found(p, size)) =>
      var now := Absorb(c.(buf := c.buf[size..]), p);
      var later := Drain(now.client);
      Handled(later.client, now.acks + later.acks)
  }

  function Receive(c: Client, data: seq<byte>): Handled {
    Drain(c.(buf := c.buf + data))
  }

  function ReceiveAll(c: Client, chunks: seq<seq<byte>>): Handled
    decreases |chunks|
  {
    if chunks == [] then Handled(c, 0) else
    var now := Receive(c, chunks[0]);
    var later := ReceiveAll(now.client, chunks[1..]);
    Handled(later.client, now.acks + later.acks)
  }

  /** `connection_lost`: whatever was pending is given up. */
  function Lose(c: Client): Client {
    c.(closed := true, connected := false, pending := {})
  }

  class MqttConnection {
    const topic: Topic
    const topicPrefix: seq<byte>
    var buf: seq<byte>
    var pid: nat
    var pending: set<nat>
    var connected: bool
    var connackRc: Option<int>
    var closed: bool
    var written: seq<byte> // every byte handed to the transport

    constructor (topic: Topic)
      ensures Valid() && View() == FreshClient(topic) && written == []
    {
      this.topic, topicPrefix := topic, TwoBytes(|topic|) + topic;
      buf, pid, pending, connected, connackRc, closed, written := [], 0, {}, false, None, false, [];
    }

    ghost predicate Valid() {
      topicPrefix == MString(topic).value
    }

    function View(): Client
      reads this
    {
      Client(topic, buf, pid, pending, connected, connackRc, closed)
    }

    /** `None` stands for the exception that the write raises, if it is to. */
    method Publish(payload: seq<byte>, qos: nat, writeRaises: bool) returns (r: Option<int>)
      requires Valid()
      modifies this
      ensures r == None <==> writeRaises && Writes(old(View()), qos)
      ensures r == None ==> View() == RaiseStep(old(View()), qos) && written == old(written)
      ensures var sent := PublishStep(old(View()), payload, qos);
        r.Some? ==> View() == sent.client && r == Some(sent.result) && written == old(written) + sent.bytes
      ensures r == Some(-1) ==> written == old(written)
    {
      if qos == 0 {
        var rem := topicPrefix + payload;
        var length := EncodeVarint(|rem|);
        if writeRaises {
          return None;
        }
        written := written + ([0x30] + length + rem);
        return Some(0);
      }
      pid := pid % 65535 + 1;
      if pid in pending {
        return Some(-1);
      }
      var rem := topicPrefix + TwoBytes(pid) + payload;
      var length := EncodeVarint(|rem|);
      if writeRaises {
        return None;
      }
      written := written + ([0x32] + length + rem);
      pending := pending + {pid};
      return Some(pid);
    }

    /** Returns the number of `on_puback` callbacks it makes. */
    method DataReceived(data: seq<byte>) returns (acks: nat)
      modifies this
      ensures Handled(View(), acks) == Receive(old(View()), data)
      ensures written == old(written)
    {
      buf := buf + data;
      acks := 0;
      ghost var start := View();
      while |buf| >= 2
        invariant written == old(written)
        invariant Drain(start) == Handled(Drain(View()).client, acks + Drain(View()).acks)
        decreases |buf|
      {
        var found := ReadPacket(buf);
        if found == None {
          break;
        }
        var Found(p, total) := found.value;
        buf := buf[total..];
        var acked := OnPacket(p);
        acks := acks + acked;
      }
    }

    /** The branches of the loop on the packet type. */
    method OnPacket(p: Packet) returns (acks: nat)
      modifies this`pending, this`connackRc, this`connected
      ensures Handled(View(), acks) == Absorb(old(View()), p)
    {
      acks := 0;
      var kind := p.hdr / 16;
      if kind == 4 && |p.body| >= 2 {
        var pid := FromTwoBytes(p.body[0], p.body[1]);
        if pid in pending {
          acks := 1;
        }
        pending := pending - {pid};
      } else if kind == 2 {
        connackRc := Some(if |p.body| >= 2 then p.body[1] as int else -1);
        connected := connackRc == Some(0);
      }
    }

    /** What it reports to the owner: whether the connection was up, and how much it gave up. */
    method ConnectionLost() returns (was: bool, lost: nat)
      modifies this
      ensures View() == Lose(old(View())) && written == old(written)
      ensures was == old(connected) && lost == old(|pending|)
    {
      closed := true;
      was := connected;
      connected := false;
      lost := |pending|;
      pending := {};
    }
  }

  lemma {:induction false} AbsorbAppend(c: Client, a: seq<Packet>, b: seq<Packet>)
    ensures var now := AbsorbAll(c, a);
      var later := AbsorbAll(now.client, b);
      AbsorbAll(c, a + b) == Handled(later.client, now.acks + later.acks)
    decreases |a|
  {
    if a == [] {
      assert a + b == b;
    } else {
      assert (a + b)[1..] == a[1..] + b;
      AbsorbAppend(Absorb(c, a[0]).client, a[1..], b);
    }
  }

  lemma AbsorbCons(c: Client, p: Packet, ps: seq<Packet>)
    ensures var now := Absorb(c, p);
      var later := AbsorbAll(now.client, ps);
      AbsorbAll(c, [p] + ps) == Handled(later.client, now.acks + later.acks)
  {
    assert ([p] + ps)[1..] == ps;
  }

  lemma AbsorbKeepsBuffer(c: Client, p: Packet, buf: seq<byte>)
    ensures Absorb(c.(buf := buf), p) == Handled(Absorb(c, p).client.(buf := buf), Absorb(c, p).acks)
  {
  }

  /** Packets never touch the byte buffer, and do not depend on it. */
  lemma {:induction false} AbsorbIgnoresBuffer(c: Client, ps: seq<Packet>, buf: seq<byte>)
    ensures var h := AbsorbAll(c, ps);
      AbsorbAll(c.(buf := buf), ps) == Handled(h.client.(buf := buf), h.acks)
    decreases |ps|
  {
    if ps != [] {
      AbsorbIgnoresBuffer(Absorb(c, ps[0]).client, ps[1..], buf);
    }
  }

  /** The receive loop acts on exactly the packets of the buffer, in order. */
  lemma {:induction false} DrainIsPacketwise(c: Client)
    ensures var t := Take(PACKETS, c.buf);
      Drain(c) == AbsorbAll(c.(buf := t.rest), t.frames)
    decreases |c.buf|
  {
    var t := Take(PACKETS, c.buf);
    assert PACKETS(c.buf) == ParsePacket(c.buf);
    if ParsePacket(c.buf).Some? {
      var Found(p, size) := ParsePacket(c.buf).value;
      var tail := Take(PACKETS, c.buf[size..]);
      var now := Absorb(c.(buf := c.buf[size..]), p);
      DrainIsPacketwise(now.client);
      AbsorbCons(c.(buf := t.rest), p, tail.frames);
      AbsorbKeepsBuffer(c, p, c.buf[size..]);
      AbsorbKeepsBuffer(c, p, t.rest);
    }
  }

  /** However the broker's stream is cut, the publisher ends in the same state with the same count. */
  lemma {:induction false} ClientIgnoresChunking(c: Client, chunks: seq<seq<byte>>)
    requires !Advances(PACKETS, c.buf)
    ensures ReceiveAll(c, chunks) == Receive(c, Concat(chunks))
    decreases |chunks|
  {
    if chunks == [] {
      assert c.buf + Concat(chunks) == c.buf;
    } else {
      var c1 := SplitDelivery(c, chunks[0], Concat(chunks[1..]));
      ClientIgnoresChunking(c1, chunks[1..]);
    }
  }

  /** Two deliveries in place of one. */
  lemma SplitDelivery(c: Client, a: seq<byte>, b: seq<byte>) returns (c1: Client)
    ensures c1 == Receive(c, a).client && !Advances(PACKETS, c1.buf)
    ensures Receive(c, a + b) == Handled(Receive(c1, b).client, Receive(c, a).acks + Receive(c1, b).acks)
  {
    var now := Take(PACKETS, c.buf + a);
    var next := Take(PACKETS, now.rest + b);
    Associative(c.buf, a, b);
    PacketsAreStable();
    TakeAppend(PACKETS, c.buf + a, b);
    TakeIsExhaustive(PACKETS, c.buf + a);
    c1 := Receive(c, a).client;
    DrainIsPacketwise(c.(buf := c.buf + (a + b)));
    DrainIsPacketwise(c.(buf := c.buf + a));
    AbsorbIgnoresBuffer(c, now.frames, now.rest);
    DrainIsPacketwise(c1.(buf := c1.buf + b));
    AbsorbIgnoresBuffer(c, now.frames, next.rest);
    AbsorbAppend(c.(buf := next.rest), now.frames, next.frames);
  }

  // ---- the broker's answer to CONNECT ----

  /** The return code of a CONNACK (section 3.2.2.3); one that is cut short counts as -1. */
  function ReturnCode(p: Packet): seq<int> {
    if p.hdr / 16 != 2 then [] else if |p.body| < 2 then [-1] else [p.body[1] as int]
  }

  /** The last CONNACK decides: its code is kept, and the device is connected if and only if the code is 0. */
  lemma {:induction false} LastConnackDecides(c: Client, ps: seq<Packet>)
    ensures var after, codes := AbsorbAll(c, ps).client, FlatMap(ReturnCode, ps);
      if codes == [] then after.connackRc == c.connackRc && after.connected == c.connected
      else after.connackRc == Some(codes[|codes| - 1]) && (after.connected <==> codes[|codes| - 1] == 0)
    decreases |ps|
  {
    if ps != [] {
      LastConnackDecides(Absorb(c, ps[0]).client, ps[1..]);
    }
  }

  /** A broker that answers with code `code`, byte by byte. */
  lemma AnsweredConnect(topic: Topic, code: byte)
    ensures var c := Receive(FreshClient(topic), [0x20, 2, 0, code]).client;
      c.connackRc == Some(code as int) && (c.connected <==> code == 0) && c.buf == []
  {
    var p, c := Packet(0x20, [0, code]), FreshClient(topic);
    OneByteLength(2);
    assert [0x20, 2, 0, code] == Encode(p) == [] + Encode(p);
    EncodedPacketIsTaken(p);
    DrainIsPacketwise(c.(buf := Encode(p)));
    assert [p][1..] == [];
    assert AbsorbAll(c, [p]).client == Absorb(c, p).client;
  }
}
