/**
  MQTT 3.1.1 packets on the wire: the remaining-length field (section 2.2.3 of MQTT 3.1.1), the
  frame around it, and the packets the load generator builds by hand.
 */
module MqttCodec {
  import opened Wrappers
  import opened Framing
  import opened Numbers

  /** A packet as a decoder sees it: the first header byte and everything after the length field. */
  datatype Packet = Packet(hdr: byte, body: seq<byte>)

  const MAX_REMAINING := 0x1000_0000

  // ---- the remaining-length field ----

  function Varint(n: nat): (r: seq<byte>)
    ensures 0 < |r|
  {
    if n < 128 then [n as byte] else [(n % 128 + 128) as byte] + Varint(n / 128)
  }

  /** A decoded length and where it ends; `NoLength` when the bytes seen so far do not give one. */
  datatype Length = NoLength | Length(value: nat, end: nat)

  /** The value at the head of `s`, read from at most `left` bytes, and the number of bytes it took. */
  function DecodeVarint(s: seq<byte>, left: nat): (r: Length)
    ensures r.Length? ==> 0 < r.end <= |s| && r.end <= left
  {
    if left == 0 || s == [] then NoLength
    else if s[0] < 128 then Length(s[0] as nat, 1)
    else
      match DecodeVarint(s[1..], left - 1)
      case NoLength => NoLength
      case Length(v, n) => Length((s[0] - 128) as nat + 128 * v, n + 1)
  }

  /** `_varint` of the publisher: seven bits at a time, least significant group first. */
  method EncodeVarint(n: nat) returns (out: seq<byte>)
    ensures out == Varint(n)
  {
    out := [];
    var m := n;
    while true
      invariant out + Varint(m) == Varint(n)
      decreases m
    {
      var b := (m % 128) as byte;
      var before := m;
      m := m / 128;
      if m != 0 {
        b := b + 128;
      }
      assert Varint(before) == [b] + if m == 0 then [] else Varint(m);
      assert out + ([b] + if m == 0 then [] else Varint(m)) == out + [b] + if m == 0 then [] else Varint(m);
      out := out + [b];
      if m == 0 {
        return;
      }
    }
  }

  /** What `DecodeVarint` makes of `buf` from `i` on, as a value and the index of the next byte. */
  function RemainingLength(buf: seq<byte>, i: nat, left: nat): (r: Length)
    requires i <= |buf|
    ensures r.Length? ==> i < r.end <= |buf|
  {
    match DecodeVarint(buf[i..], left)
    case NoLength => NoLength
    case Length(v, n) => Length(v, i + n)
  }

  /** A length of which `value` has been read and the rest, read on, counts `mult` times. */
  function Resume(value: nat, mult: nat, rest: Length): Length {
    match rest
    case NoLength => NoLength
    case Length(v, end) => Length(value + Times(mult, v), end)
  }

  function Times(a: nat, b: nat): nat { if b == 0 then 0 else a + Times(a, b - 1) }

  lemma {:induction false} TimesIsProduct(a: nat, b: nat)
    ensures Times(a, b) == a * b
  {
    if b > 0 {
      TimesIsProduct(a, b - 1);
    }
  }

  lemma ResumeStep(buf: seq<byte>, i: nat, left: nat, value: nat, mult: nat, low: nat)
    requires i < |buf| && left > 0 && low == if buf[i] < 128 then buf[i] as nat else (buf[i] - 128) as nat
    ensures mult * low >= 0
    ensures Resume(value, mult, RemainingLength(buf, i, left))
      == if buf[i] < 128 then Length(value + mult * low, i + 1)
         else Resume(value + mult * low, mult * 128, RemainingLength(buf, i + 1, left - 1))
  {
    assert buf[i..][0] == buf[i] && buf[i..][1..] == buf[i + 1..];
    TimesIsProduct(mult, low);
    if buf[i] >= 128 {
      match RemainingLength(buf, i + 1, left - 1)
      case NoLength =>
      case Length(v, _) =>
        Distribute(mult, low, v);
        TimesIsProduct(mult, low + 128 * v);
        TimesIsProduct(mult * 128, v);
    }
  }

  lemma Distribute(a: nat, b: nat, v: nat)
    ensures a * (b + 128 * v) == a * b + (a * 128) * v
  {
  }

  lemma NothingReadYet(rest: Length)
    ensures Resume(0, 1, rest) == rest
  {
    if rest.Length? {
      TimesIsProduct(1, rest.value);
    }
  }

  /** `_varint` of the sink: the same field, read back with a running multiplier. */
  method ReadVarint(buf: seq<byte>, start: nat) returns (r: Length)
    requires start <= |buf|
    ensures r == RemainingLength(buf, start, 4)
  {
    var mult: nat, value: nat, i := 1, 0, start;
    NothingReadYet(RemainingLength(buf, start, 4));
    for k := 0 to 4
      invariant start <= i <= |buf|
      invariant RemainingLength(buf, start, 4) == Resume(value, mult, RemainingLength(buf, i, 4 - k))
    {
      if i >= |buf| {
        return NoLength;
      }
      var b := buf[i] as nat;
      var low := if b < 128 then b else b - 128;
      ResumeStep(buf, i, 4 - k, value, mult, low);
      i := i + 1;
      value := value + mult * low;
      if b < 128 {
        return Length(value, i);
      }
      mult := mult * 128;
    }
    return NoLength;
  }

  function Power128(k: nat): (p: nat)
    ensures 0 < p
  {
    if k == 0 then 1 else 128 * Power128(k - 1)
  }

  /**
    The decoder reads back exactly the values below 128^left, whatever bytes follow. Four bytes are
    allowed, so the limit is `MAX_REMAINING`; of a larger value nothing is ever decoded.
   */
  lemma {:induction false} VarintRoundTrip(n: nat, rest: seq<byte>, left: nat)
    requires 0 < left
    ensures DecodeVarint(Varint(n) + rest, left)
         == if n < Power128(left) then Length(n, |Varint(n)|) else NoLength
    decreases left
  {
    if n < 128 {
      assert Power128(left) >= 128 && (Varint(n) + rest)[0] as nat == n;
    } else {
      assert (Varint(n) + rest)[1..] == Varint(n / 128) + rest;
      assert left == 1 || (n / 128 < Power128(left - 1) <==> n < Power128(left));
      if left > 1 {
        VarintRoundTrip(n / 128, rest, left - 1);
      }
    }
  }

  lemma FourBytes()
    ensures Power128(4) == MAX_REMAINING
  {
    assert Power128(4) == 128 * (128 * (128 * (128 * Power128(0))));
  }

  /** A decoded value does not change when more bytes arrive. */
  lemma {:induction false} DecodeVarintExtends(s: seq<byte>, more: seq<byte>, left: nat)
    requires DecodeVarint(s, left).Length?
    ensures DecodeVarint(s + more, left) == DecodeVarint(s, left)
    decreases left
  {
    if s[0] >= 128 {
      assert (s + more)[1..] == s[1..] + more;
      DecodeVarintExtends(s[1..], more, left - 1);
    }
  }

  /** Nor when bytes behind it are missing. */
  lemma {:induction false} DecodeVarintShortens(s: seq<byte>, n: nat, left: nat)
    requires DecodeVarint(s, left).Length? && DecodeVarint(s, left).end <= n <= |s|
    ensures DecodeVarint(s[..n], left) == DecodeVarint(s, left)
    decreases left
  {
    if s[0] >= 128 {
      assert s[..n][1..] == s[1..][..n - 1];
      DecodeVarintShortens(s[1..], n - 1, left - 1);
    }
  }

  // ---- frames ----

  /** The frame at the head of a buffer, as both decoders find it. */
  function ParsePacket(buf: seq<byte>): (r: Option<Found<Packet>>)
    ensures r.Some? ==> 0 < r.value.size <= |buf|
  {
    if |buf| < 2 then None else
    match RemainingLength(buf, 1, 4)
    case NoLength => None
    case Length(value, i) =>
      var total := i + value;
      if |buf| < total then None else Some(Found(Packet(buf[0], buf[i..total]), total))
  }

  /** The test for a complete packet that both receive loops start each round with. */
  method ReadPacket(buf: seq<byte>) returns (r: Option<Found<Packet>>)
    ensures r == ParsePacket(buf)
  {
    if |buf| < 2 {
      return None;
    }
    var dec := ReadVarint(buf, 1);
    if dec == NoLength {
      return None;
    }
    var total := dec.end + dec.value;
    if |buf| < total {
      return None;
    }
    return Some(Found(Packet(buf[0], buf[dec.end..total]), total));
  }

  const PACKETS: Parser<Packet> := buf => ParsePacket(buf)

  function Encode(p: Packet): (r: seq<byte>)
    ensures 2 <= |r|
  {
    [p.hdr] + Varint(|p.body|) + p.body
  }

  lemma ParsePacketExtends(buf: seq<byte>, more: seq<byte>)
    requires ParsePacket(buf).Some?
    ensures ParsePacket(buf + more) == ParsePacket(buf)
  {
    var i := RemainingLength(buf, 1, 4).end;
    var total := ParsePacket(buf).value.size;
    assert (buf + more)[1..] == buf[1..] + more;
    DecodeVarintExtends(buf[1..], more, 4);
    assert (buf + more)[i..total] == buf[i..total];
  }

  lemma PacketsAreStable()
    ensures Stable(PACKETS)
  {
    forall b, more | PACKETS(b).Some?
      ensures PACKETS(b + more) == PACKETS(b)
    {
      ParsePacketExtends(b, more);
    }
  }

  /**
    A packet is found again at the head of any stream that starts with it exactly when its body is
    shorter than 2^28 bytes. A longer one is never found, however many bytes follow.
   */
  lemma PacketRoundTrip(p: Packet, rest: seq<byte>)
    ensures ParsePacket(Encode(p) + rest)
         == if |p.body| < MAX_REMAINING then Some(Found(p, |Encode(p)|)) else None
  {
    var buf := Encode(p) + rest;
    var v := Varint(|p.body|);
    assert buf[1..] == v + (p.body + rest);
    VarintRoundTrip(|p.body|, p.body + rest, 4);
    FourBytes();
    if |p.body| < MAX_REMAINING {
      var i := 1 + |v|;
      assert RemainingLength(buf, 1, 4) == Length(|p.body|, i);
      assert buf[i..i + |p.body|] == p.body;
    }
  }

  /** An over-long packet blocks the receiver for good: nothing behind it is ever taken either. */
  lemma OverlongPacketBlocks(p: Packet, chunks: seq<seq<byte>>)
    requires |p.body| >= MAX_REMAINING
    ensures Feed(PACKETS, [], [Encode(p)] + chunks) == Scan([], Encode(p) + Concat(chunks))
  {
    PacketsAreStable();
    ChunkingIsIrrelevant(PACKETS, [], [Encode(p)] + chunks);
    assert [] + Concat([Encode(p)] + chunks) == Encode(p) + Concat(chunks);
    PacketRoundTrip(p, Concat(chunks));
  }

  function EncodeAll(ps: seq<Packet>): seq<byte> {
    FlatMap(Encode, ps)
  }

  ghost predicate Framable(ps: seq<Packet>) {
    forall p | p in ps :: |p.body| < MAX_REMAINING
  }

  /** A stream of encoded packets is taken apart into exactly those packets. */
  lemma {:induction false} StreamRoundTrip(ps: seq<Packet>)
    requires Framable(ps)
    ensures Take(PACKETS, EncodeAll(ps)) == Scan(ps, [])
  {
    if ps != [] {
      PacketRoundTrip(ps[0], EncodeAll(ps[1..]));
      StreamRoundTrip(ps[1..]);
      assert EncodeAll(ps)[|Encode(ps[0])|..] == EncodeAll(ps[1..]);
    }
  }

  lemma EncodedPacketIsTaken(p: Packet)
    requires |p.body| < MAX_REMAINING
    ensures Take(PACKETS, Encode(p)) == Scan([p], [])
  {
    StreamRoundTrip([p]);
    assert EncodeAll([p]) == Encode(p) + FlatMap(Encode, [p][1..]);
    assert EncodeAll([p]) == Encode(p);
  }

  // ---- the packets of the load generator ----

  function TwoBytes(n: nat): (r: seq<byte>)
    requires n < 0x1_0000
    ensures |r| == 2 && r[0] as nat * 256 + r[1] as nat == n
  {
    [(n / 256) as byte, (n % 256) as byte]
  }

  function FromTwoBytes(hi: byte, lo: byte): nat { hi as nat * 256 + lo as nat }

  /** `_mstr`; a string of 65536 bytes or more does not fit its length field and raises. */
  function MString(s: seq<byte>): Option<seq<byte>> {
    if |s| < 0x1_0000 then Some(TwoBytes(|s|) + s) else None
  }

  const PROTOCOL_NAME: seq<byte> := [77, 81, 84, 84] // "MQTT"

  /** `build_connect`; `None` stands for the OverflowError of a field that is too long. */
  function BuildConnect(clientId: seq<byte>, username: seq<byte>, password: seq<byte>, keepalive: nat, clean: bool)
    : (r: Option<Packet>)
    ensures r.Some? <==> keepalive < 0x1_0000 && |clientId| < 0x1_0000 && |username| < 0x1_0000 && |password| < 0x1_0000
    ensures r.Some? ==> r.value.hdr == 0x10 && |r.value.body| < MAX_REMAINING
    ensures r.Some? ==>
      ReadConnect(r.value.body) == Some(Connect(clean, keepalive, clientId, Given(username), Given(password)))
  {
    var name, id, user, pass := MString(PROTOCOL_NAME), MString(clientId), MString(username), MString(password);
    var flags := Flags(clean, username != [], password != []);
    if keepalive >= 0x1_0000 || name.None? || id.None? || user.None? || pass.None? then None else
    var head := name.value + [4] + [flags] + TwoBytes(keepalive);
    var payload := id.value + (if username != [] then user.value else []) + (if password != [] then pass.value else []);
    PayloadReadsBack(clientId, username, password, keepalive, clean);
    HeadReadsBack(flags, keepalive, payload);
    Some(Packet(0x10, head + payload))
  }

  // ---- the CONNECT packet read by its standard (section 3.1) ----

  datatype Connect = Connect(clean: bool, keepalive: nat, clientId: seq<byte>, username: Option<seq<byte>>,
                             password: Option<seq<byte>>)

  /** A field that is left out when it is empty. */
  function Given(s: seq<byte>): Option<seq<byte>> { if s == [] then None else Some(s) }

  datatype Field = Field(value: seq<byte>, rest: seq<byte>)

  function ReadMString(s: seq<byte>): Option<Field> {
    if |s| < 2 then None else
    var n := FromTwoBytes(s[0], s[1]);
    if |s| < 2 + n then None else Some(Field(s[2..2 + n], s[2 + n..]))
  }

  /** Protocol name and level, flags, keep-alive, then the fields the flags announce, and nothing else. */
  function ReadConnect(body: seq<byte>): Option<Connect> {
    match ReadMString(body)
    case None => None
    case Some(Field(name, s)) =>
      if name != PROTOCOL_NAME || |s| < 4 || s[0] != 4 then None
      else ReadPayload(s[1], FromTwoBytes(s[2], s[3]), s[4..])
  }

  function ReadPayload(flags: byte, keepalive: nat, s: seq<byte>): Option<Connect> {
    match ReadMString(s)
    case None => None
    case Some(Field(id, s)) =>
      match ReadIf(flags / 128 % 2 == 1, s)
      case None => None
      case Some(Announced(user, s)) =>
        match ReadIf(flags / 64 % 2 == 1, s)
        case None => None
        case Some(Announced(pass, s)) =>
          if s != [] then None else Some(Connect(flags / 2 % 2 == 1, keepalive, id, user, pass))
  }

  datatype Announced = Announced(value: Option<seq<byte>>, rest: seq<byte>)

  function ReadIf(announced: bool, s: seq<byte>): Option<Announced> {
    if !announced then Some(Announced(None, s)) else
    match ReadMString(s)
    case None => None
    case Some(Field(value, rest)) => Some(Announced(Some(value), rest))
  }

  lemma MStringReadsBack(s: seq<byte>, rest: seq<byte>)
    requires |s| < 0x1_0000
    ensures ReadMString(MString(s).value + rest) == Some(Field(s, rest))
  {
    TwoBytesRoundTrip(|s|);
    var all := MString(s).value + rest;
    assert all[0] == TwoBytes(|s|)[0] && all[1] == TwoBytes(|s|)[1];
    assert all[2..2 + |s|] == s && all[2 + |s|..] == rest;
  }

  function ShownIf(s: seq<byte>): seq<byte>
    requires |s| < 0x1_0000
  {
    if s != [] then MString(s).value else []
  }

  lemma GivenReadsBack(s: seq<byte>, rest: seq<byte>)
    requires |s| < 0x1_0000
    ensures ReadIf(s != [], ShownIf(s) + rest) == Some(Announced(Given(s), rest))
  {
    MStringReadsBack(s, rest);
    assert [] + rest == rest;
  }

  function Flags(clean: bool, user: bool, pass: bool): byte {
    (if clean then 0x02 else 0) + (if user then 0x80 else 0) + (if pass then 0x40 else 0)
  }

  lemma FlagsAre(clean: bool, user: bool, pass: bool)
    ensures var f := Flags(clean, user, pass);
      (f / 128 % 2 == 1 <==> user) && (f / 64 % 2 == 1 <==> pass) && (f / 2 % 2 == 1 <==> clean)
  {
  }

  lemma PayloadReadsBack(clientId: seq<byte>, username: seq<byte>, password: seq<byte>, keepalive: nat, clean: bool)
    requires |clientId| < 0x1_0000 && |username| < 0x1_0000 && |password| < 0x1_0000
    ensures ReadPayload(Flags(clean, username != [], password != []), keepalive,
      MString(clientId).value + ShownIf(username) + ShownIf(password))
      == Some(Connect(clean, keepalive, clientId, Given(username), Given(password)))
  {
    var tail := ShownIf(username) + ShownIf(password);
    FlagsAre(clean, username != [], password != []);
    Associative(MString(clientId).value, ShownIf(username), ShownIf(password));
    MStringReadsBack(clientId, tail);
    GivenReadsBack(username, ShownIf(password));
    GivenReadsBack(password, []);
    assert ShownIf(password) + [] == ShownIf(password);
  }

  lemma HeadReadsBack(flags: byte, keepalive: nat, payload: seq<byte>)
    requires keepalive < 0x1_0000
    ensures ReadConnect(MString(PROTOCOL_NAME).value + [4] + [flags] + TwoBytes(keepalive) + payload)
      == ReadPayload(flags, keepalive, payload)
  {
    var s := [4, flags] + TwoBytes(keepalive) + payload;
    assert MString(PROTOCOL_NAME).value + [4] + [flags] + TwoBytes(keepalive) + payload == MString(PROTOCOL_NAME).value
      + s;
    MStringReadsBack(PROTOCOL_NAME, s);
    TwoBytesRoundTrip(keepalive);
    assert s[4..] == payload && s[2] == TwoBytes(keepalive)[0] && s[3] == TwoBytes(keepalive)[1];
  }

  const PINGREQ := Packet(0xC0, [])
  const PINGRESP := Packet(0xD0, [])
  const CONNACK := Packet(0x20, [0, 0])

  function Puback(pid: nat): Packet
    requires pid < 0x1_0000
  {
    Packet(0x40, TwoBytes(pid))
  }

  /** PUBLISH with QoS 0: topic and payload, no packet identifier. */
  function PublishQos0(topic: seq<byte>, payload: seq<byte>): Packet
    requires |topic| < 0x1_0000
  {
    Packet(0x30, MString(topic).value + payload)
  }

  /** PUBLISH with QoS 1: the packet identifier stands between topic and payload. */
  function PublishQos1(topic: seq<byte>, pid: nat, payload: seq<byte>): Packet
    requires |topic| < 0x1_0000 && pid < 0x1_0000
  {
    Packet(0x32, MString(topic).value + TwoBytes(pid) + payload)
  }

  lemma TwoBytesRoundTrip(n: nat)
    requires n < 0x1_0000
    ensures FromTwoBytes(TwoBytes(n)[0], TwoBytes(n)[1]) == n
  {
  }

  // ---- the PUBLISH packet read by its standard (section 3.3) ----

  datatype Publication = Publication(dup: bool, qos: nat, retain: bool, topic: seq<byte>, pid: Option<nat>,
                                     payload: seq<byte>)

  /** Type and flags from the first byte; topic, an identifier if the QoS is above 0, and the rest is payload. */
  function ReadPublish(p: Packet): Option<Publication> {
    var dup, qos, retain := p.hdr / 8 % 2 == 1, p.hdr as nat / 2 % 4, p.hdr % 2 == 1;
    if p.hdr / 16 != 3 || qos == 3 then None else
    match ReadMString(p.body)
    case None => None
    case Some(Field(topic, s)) =>
      if qos == 0 then Some(Publication(dup, qos, retain, topic, None, s))
      else if |s| < 2 then None
      else Some(Publication(dup, qos, retain, topic, Some(FromTwoBytes(s[0], s[1])), s[2..]))
  }

  /** A PUBLISH carries its QoS, topic, identifier and payload, and is neither a duplicate nor retained. */
  lemma PublishReadsBack(topic: seq<byte>, pid: nat, payload: seq<byte>)
    requires |topic| < 0x1_0000 && pid < 0x1_0000
    ensures ReadPublish(PublishQos1(topic, pid, payload))
      == Some(Publication(false, 1, false, topic, Some(pid), payload))
    ensures ReadPublish(PublishQos0(topic, payload)) == Some(Publication(false, 0, false, topic, None, payload))
  {
    var id := TwoBytes(pid);
    MStringReadsBack(topic, payload);
    Associative(MString(topic).value, id, payload);
    MStringReadsBack(topic, id + payload);
    TwoBytesRoundTrip(pid);
    assert (id + payload)[0] == id[0] && (id + payload)[1] == id[1] && (id + payload)[2..] == payload;
  }

  // ---- single packets byte by byte ----

  lemma OneByteLength(n: nat)
    requires n < 128
    ensures Varint(n) == [n as byte]
  {
  }

  /** Topic "t", identifier 1, one byte of payload; and the same without an identifier. */
  lemma PublishBytes()
    ensures Encode(PublishQos1([116], 1, [7])) == [0x32, 6, 0, 1, 116, 0, 1, 7]
    ensures Encode(PublishQos0([116], [7])) == [0x30, 4, 0, 1, 116, 7]
  {
    assert TwoBytes(1) == [0, 1];
    assert PublishQos1([116], 1, [7]).body == [0, 1, 116, 0, 1, 7];
    assert PublishQos0([116], [7]).body == [0, 1, 116, 7];
    OneByteLength(6);
    OneByteLength(4);
  }

  /** Sections 3.2, 3.4, 3.12 and 3.13. */
  lemma FixedPacketBytes(pid: nat)
    requires pid < 0x1_0000
    ensures Encode(CONNACK) == [0x20, 2, 0, 0] && Encode(PINGREQ) == [0xC0, 0] && Encode(PINGRESP) == [0xD0, 0]
    ensures Encode(Puback(pid)) == [0x40, 2, (pid / 256) as byte, (pid % 256) as byte]
  {
    OneByteLength(2);
    OneByteLength(0);
  }

  /** The limits of one, two, three and four bytes, and the example 321, of section 2.2.3. */
  lemma VarintExamples()
    ensures Varint(0) == [0x00] && Varint(127) == [0x7F] && Varint(321) == [0xC1, 0x02]
    ensures Varint(128) == [0x80, 0x01] && Varint(16383) == [0xFF, 0x7F]
    ensures Varint(16384) == [0x80, 0x80, 0x01] && Varint(2097151) == [0xFF, 0xFF, 0x7F]
    ensures Varint(2097152) == [0x80, 0x80, 0x80, 0x01] && Varint(268435455) == [0xFF, 0xFF, 0xFF, 0x7F]
  {
    assert Varint(2) == [2] && Varint(1) == [1];
    assert Varint(16383) == [0xFF] + Varint(127);
    assert Varint(16384) == [0x80] + Varint(128);
    assert Varint(2097151) == [0xFF] + Varint(16383);
    assert Varint(2097152) == [0x80] + Varint(16384);
    assert Varint(268435455) == [0xFF] + Varint(2097151);
  }

  /**
    The remaining-length field of section 2.2.3: byte k holds the k-th group of seven bits, every byte but
    the last says that one follows, and no shorter field would do.
   */
  lemma {:induction false} VarintDigits(n: nat, k: nat)
    requires k < |Varint(n)|
    ensures Varint(n)[k] as nat % 128 == n / Power128(k) % 128
    ensures Varint(n)[k] >= 128 <==> k + 1 < |Varint(n)|
    ensures n / Power128(k) > 0 || n == 0
    decreases k
  {
    if k > 0 {
      var p := Power128(k - 1);
      VarintDigits(n / 128, k - 1);
      DivideTwice(n, 128, p);
    } else {
      assert n / 1 == n;
    }
  }
}
