/**
  When a refused publish means that the packet identifiers are exhausted, and a run in which it does
  not. Nothing but the identifiers right behind the last one decides.
 */
module MqttExhaustion {
  import opened Wrappers
  import opened Framing
  import opened MqttCodec
  import opened MqttClient
  import opened MqttLink
  import opened Sequences
  import S = MqttSink

  /** The identifier that the `i`-th QoS 1 publish from now on asks for. */
  function IdAhead(pid: nat, i: nat): nat
    requires i >= 1
  {
    (pid + i - 1) % 65535 + 1
  }

  function Ahead(pid: nat, k: nat): set<nat> { set i | 1 <= i <= k :: IdAhead(pid, i) }

  /** The free identifiers are exactly those right behind the last one. */
  ghost predicate FreeAhead(c: Client) {
    forall i | 1 <= i <= 65535 - |c.pending| :: IdAhead(c.pid, i) !in c.pending
  }

  /** Nothing is delivered, and no write raises. */
  predicate Quiet(e: Event) { (e.Publish? && !e.raises) || e.Ping? }

  function Publishes(es: seq<Event>): nat {
    if es == [] then 0 else (if es[0].Publish? && es[0].qos != 0 then 1 else 0) + Publishes(es[1..])
  }

  lemma IdsAheadDiffer(pid: nat, i: nat, j: nat)
    requires 1 <= i < j <= 65535
    ensures IdAhead(pid, i) != IdAhead(pid, j)
  {
  }

  lemma NextIdAhead(pid: nat, i: nat)
    requires i >= 1
    ensures NextPid(pid) == IdAhead(pid, 1) && IdAhead(NextPid(pid), i) == IdAhead(pid, i + 1)
  {
  }

  lemma AheadNext(pid: nat, k: nat)
    ensures Ahead(pid, k + 1) == {NextPid(pid)} + Ahead(NextPid(pid), k)
  {
    NextIdAhead(pid, 1);
    forall i | 1 <= i <= k
      ensures IdAhead(NextPid(pid), i) in Ahead(pid, k + 1)
    {
      NextIdAhead(pid, i);
      assert 1 <= i + 1 <= k + 1;
    }
    forall i | 1 <= i <= k + 1
      ensures IdAhead(pid, i) in {NextPid(pid)} + Ahead(NextPid(pid), k)
    {
      if i > 1 {
        NextIdAhead(pid, i - 1);
      }
    }
  }

  lemma {:induction false} RefusalsAreCounted(l: Link, es: seq<Event>)
    ensures Run(l, es).refused >= l.refused
    decreases |es|
  {
    if es != [] {
      RefusalsAreCounted(Next(l, es[0]), es[1..]);
    }
  }

  /** What a run of publishes does to the client, as long as none is refused. */
  ghost predicate Published(c: Client, c': Client, k: nat) {
    && c'.connected && (forall i | 1 <= i <= k :: IdAhead(c.pid, i) !in c.pending)
    && c'.pid == (if k == 0 then c.pid else IdAhead(c.pid, k))
    && c'.pending == c.pending + Ahead(c.pid, k) && |c'.pending| == |c.pending| + k
  }

  lemma OnePublished(c: Client, c1: Client, c': Client, k: nat)
    requires c.connected && NextPid(c.pid) !in c.pending
    requires c1 == c.(pid := NextPid(c.pid), pending := c.pending + {NextPid(c.pid)}) && Published(c1, c', k)
    ensures Published(c, c', k + 1)
  {
    AheadNext(c.pid, k);
    NextIdAhead(c.pid, 1);
    forall i | 1 <= i <= k + 1
      ensures IdAhead(c.pid, i) !in c.pending
    {
      if i > 1 {
        NextIdAhead(c.pid, i - 1);
        assert IdAhead(c1.pid, i - 1) !in c1.pending;
      }
    }
    if k > 0 {
      NextIdAhead(c.pid, k);
    }
  }

  lemma QuietStep(l: Link, e: Event)
    requires l.client.connected && Quiet(e) && Next(l, e).refused == l.refused
    ensures var c, c1 := l.client, Next(l, e).client;
      if e.Publish? && e.qos != 0
      then NextPid(c.pid) !in c.pending && c1 == c.(pid := NextPid(c.pid), pending := c.pending + {NextPid(c.pid)})
      else c1 == c
  {
  }

  lemma {:induction false} QuietRun(l: Link, es: seq<Event>, end: Link, n: nat)
    requires l.client.connected && (forall e | e in es :: Quiet(e))
    requires end == Run(l, es) && n == Publishes(es) && end.refused == l.refused
    ensures Published(l.client, end.client, n)
    decreases |es|
  {
    if es == [] {
      NonePublished(l.client);
    } else {
      var l1, m := QuietFront(l, es, end);
      QuietRun(l1, es[1..], end, m);
      QuietFirst(l, es[0], end.client, m, l1);
    }
  }

  /** The first event of a run refuses nothing, and the others are a run of their own. */
  lemma QuietFront(l: Link, es: seq<Event>, end: Link) returns (l1: Link, m: nat)
    requires es != [] && l.client.connected && (forall e | e in es :: Quiet(e))
    requires end == Run(l, es) && end.refused == l.refused
    ensures l1 == Next(l, es[0]) && end == Run(l1, es[1..]) && m == Publishes(es[1..])
    ensures l1.client.connected && l1.refused == l.refused && (forall e | e in es[1..] :: Quiet(e)) && Quiet(es[0])
    ensures Publishes(es) == m + if es[0].Publish? && es[0].qos != 0 then 1 else 0
  {
    l1, m := Next(l, es[0]), Publishes(es[1..]);
    assert es[0] in es && forall e | e in es[1..] :: e in es;
    RefusalsAreCounted(l1, es[1..]);
  }

  lemma NonePublished(c: Client)
    requires c.connected
    ensures Published(c, c, 0)
  {
    assert c.pending + Ahead(c.pid, 0) == c.pending;
  }

  lemma QuietFirst(l: Link, e: Event, c': Client, k: nat, l1: Link)
    requires l.client.connected && Quiet(e) && l1 == Next(l, e) && l1.refused == l.refused
    requires Published(l1.client, c', k)
    ensures Published(l.client, c', k + if e.Publish? && e.qos != 0 then 1 else 0)
  {
    QuietStep(l, e);
    if e.Publish? && e.qos != 0 {
      OnePublished(l.client, l1.client, c', k);
    }
  }

  lemma NextAfter(c: Client, c': Client, k: nat)
    requires Published(c, c', k)
    ensures NextPid(c'.pid) == IdAhead(c.pid, k + 1)
  {
    if k > 0 {
      IdAheadOfAhead(c.pid, k);
    } else {
      NextIdAhead(c.pid, 1);
    }
  }

  lemma RefusalDecides(c: Client, c': Client, k: nat)
    requires Published(c, c', k) && |c'.pending| <= 65535 && NextPid(c'.pid) in c'.pending
    ensures |c'.pending| == 65535 <==> FreeAhead(c)
  {
    NextAfter(c, c', k);
    if FreeAhead(c) && k < 65535 - |c.pending| {
      assert IdAhead(c.pid, k + 1) !in c.pending;
      var i :| 1 <= i <= k && IdAhead(c.pid, i) == IdAhead(c.pid, k + 1);
      IdsAheadDiffer(c.pid, i, k + 1);
    }
  }

  /**
    From any reachable state, publish with nothing delivered in between. The first publish to be refused
    meets all 65535 identifiers outstanding exactly if the free ones were those right behind the last
    one; otherwise it runs into an older identifier while others are free.
   */
  lemma FirstRefusalIffFreeAhead(l: Link, es: seq<Event>, payload: seq<byte>, qos: nat)
    requires Sound(l) && l.client.connected && (forall e | e in es :: Quiet(e)) && Run(l, es).refused == l.refused
    requires PublishStep(Run(l, es).client, payload, qos).result < 0
    ensures |Run(l, es).client.pending| == 65535 <==> FreeAhead(l.client)
  {
    QuietRun(l, es, Run(l, es), Publishes(es));
    IdsInRange(l, es);
    RefusalDecides(l.client, Run(l, es).client, Publishes(es));
  }

  lemma IdAheadOfAhead(pid: nat, k: nat)
    requires k >= 1
    ensures NextPid(IdAhead(pid, k)) == IdAhead(pid, k + 1)
  {
  }

  /** Identifiers stay in range, so no more than 65535 are ever outstanding. */
  lemma IdsInRange(l: Link, es: seq<Event>)
    requires Sound(l) && l.client.connected && (forall e | e in es :: Quiet(e)) && Run(l, es).refused == l.refused
    ensures |l.client.pending| + Publishes(es) == |Run(l, es).client.pending| <= 65535
  {
    QuietRun(l, es, Run(l, es), Publishes(es));
    forall x | x in Run(l, es).client.pending
      ensures 1 <= x <= 65535
    {
      if x in l.client.pending {
        assert x in Elements(Outstanding(l)) && x in Outstanding(l);
      }
    }
    Bounded(Run(l, es).client.pending, 65535);
  }

  lemma {:induction false} AheadCardinality(pid: nat, k: nat)
    requires k <= 65535
    ensures |Ahead(pid, k)| == k
  {
    if k == 0 {
      assert Ahead(pid, 0) == {};
    } else {
      AheadCardinality(pid, k - 1);
      assert Ahead(pid, k) == Ahead(pid, k - 1) + {IdAhead(pid, k)};
      forall i | 1 <= i <= k - 1
        ensures IdAhead(pid, i) != IdAhead(pid, k)
      {
        IdsAheadDiffer(pid, i, k);
      }
    }
  }

  /** No more identifiers are free than there are left. */
  lemma NotAllFree(pending: set<nat>, pid: nat, k: nat)
    requires (forall x | x in pending :: 1 <= x <= 65535) && 65535 - |pending| < k <= 65535
    ensures exists i | 1 <= i <= k :: IdAhead(pid, i) in pending
  {
    AheadCardinality(pid, k);
    if pending !! Ahead(pid, k) {
      Bounded(pending + Ahead(pid, k), 65535);
    }
    var x :| x in pending && x in Ahead(pid, k);
  }

  /** With free identifiers right behind the last, a raised write ends that, unless none is pending. */
  lemma RaiseBreaksFreeAhead(c: Client)
    requires FreeAhead(c) && Writes(c, 1) && forall x | x in c.pending :: 1 <= x <= 65535
    ensures FreeAhead(RaiseStep(c, 1)) <==> c.pending == {}
  {
    var n, c' := |c.pending|, RaiseStep(c, 1);
    if n > 0 {
      Bounded(c.pending, 65535);
      NotAllFree(c.pending, c.pid, 65536 - n);
      var i :| 1 <= i <= 65536 - n && IdAhead(c.pid, i) in c.pending;
      NextIdAhead(c.pid, 1);
      assert i == 65536 - n;
      NextIdAhead(c.pid, 65535 - n);
      assert IdAhead(c'.pid, 65535 - n) in c'.pending;
    }
  }

  // ---- a run that ends in a refusal with an identifier free ----

  /** The publishes of a connection that has published nothing yet: all identifiers, and one more. */
  function Fill(payload: seq<byte>, n: nat): seq<Event> { seq(n, _ => Event.Publish(payload, 1, false)) }

  /** Nothing in flight and nothing published. */
  ghost predicate Idle(l: Link, topic: Topic) {
    && l.client.topic == topic && l.client.connected && l.client.pending == {} && l.client.pid == 0
      && l.client.buf == []
    && l.sink.buf == [] && !l.sink.closed && l.up == [] && l.down == [] && l.refused == l.raised == 0
  }

  lemma SinkAnswersOne(s: S.Sink, p: Packet)
    requires s.buf == [] && !s.closed && UpPacket(p)
    ensures var d := S.Receive(s, Encode(p)); d.sink.buf == [] && !d.sink.closed && d.out == EncodeAll(Answers(p))
  {
    AnswerOfPacket(p);
    EncodedPacketIsTaken(p);
    assert [] + Encode(p) == Encode(p);
    S.ReceiveIsPacketwise(s, Encode(p));
    Singleton(S.Reply, p);
  }

  lemma ClientTakesOne(c: Client, p: Packet)
    requires c.buf == [] && |p.body| < MAX_REMAINING
    ensures var h := Receive(c, Encode(p)); h == Handled(Absorb(c, p).client, Absorb(c, p).acks)
  {
    EncodedPacketIsTaken(p);
    assert [] + Encode(p) == Encode(p);
    DrainIsPacketwise(c.(buf := c.buf + Encode(p)));
    assert [p][1..] == [];
    assert c.(buf := []) == c;
  }

  /** The delivery of exactly the first packet on the way up. */
  lemma DeliverUp(l: Link, p: Packet)
    requires l.sink.buf == [] && !l.sink.closed && l.down == [] && UpPacket(p) && Encode(p) <= l.up
    ensures var l' := Next(l, CarryUp(|Encode(p)|));
      && l'.client == l.client && l'.sink.buf == [] && !l'.sink.closed && l'.refused == l.refused
        && l'.raised == l.raised
      && l'.up == l.up[|Encode(p)|..] && l'.down == EncodeAll(Answers(p))
  {
    SinkAnswersOne(l.sink, p);
    assert l.up[..|Encode(p)|] == Encode(p) && [] + EncodeAll(Answers(p)) == EncodeAll(Answers(p));
  }

  /** The delivery of the only packet on the way down. */
  lemma DeliverDown(l: Link, p: Packet)
    requires l.client.buf == [] && l.down == Encode(p) && |p.body| < MAX_REMAINING
    ensures var l' := Next(l, CarryDown(|Encode(p)|));
      && l'.client == Absorb(l.client, p).client && l'.sink == l.sink && l'.up == l.up && l'.down == []
      && l'.refused == l.refused && l'.raised == l.raised
  {
    ClientTakesOne(l.client, p);
    assert l.down[..|Encode(p)|] == Encode(p) && l.down[|Encode(p)|..] == [];
  }

  /** Delivered in both directions, a CONNECT leaves the connection up and nothing in flight. */
  lemma Handshake(topic: Topic, connect: Packet)
    requires connect.hdr == 0x10 && |connect.body| < MAX_REMAINING
    ensures Idle(Next(Next(Opened(topic, connect), CarryUp(|Encode(connect)|)), CarryDown(|Encode(CONNACK)|)), topic)
  {
    DeliverUp(Opened(topic, connect), connect);
    Singleton(Encode, CONNACK);
    DeliverDown(Next(Opened(topic, connect), CarryUp(|Encode(connect)|)), CONNACK);
  }

  /**
    The identifiers 1 to `n` were asked for and all but those of `holes` are pending; the first publish
    leads the way.
   */
  ghost predicate Filled(l: Link, topic: Topic, payload: seq<byte>, n: nat, holes: set<nat>) {
    && l.client.topic == topic && l.client.connected && l.client.buf == []
    && l.sink.buf == [] && !l.sink.closed && l.down == [] && l.refused == 0 && l.raised == |holes|
    && l.client.pid == n && (forall x :: x in l.client.pending <==> 1 <= x <= n && x !in holes)
    && if n == 0 then l.up == [] else Encode(PublishQos1(topic, 1, payload)) <= l.up
  }

  lemma FillOne(l: Link, topic: Topic, payload: seq<byte>, n: nat, holes: set<nat>)
    requires n < 65535 && Filled(l, topic, payload, n, holes) && forall x | x in holes :: x <= n
    ensures Filled(Next(l, Event.Publish(payload, 1, false)), topic, payload, n + 1, holes)
  {
    NextPidIsTheSuccessor(n);
    if n == 0 {
      assert [] + Encode(PublishQos1(topic, 1, payload)) == Encode(PublishQos1(topic, 1, payload));
    } else {
      PrefixStays(Encode(PublishQos1(topic, 1, payload)), l.up, Encode(PublishQos1(topic, n + 1, payload)));
    }
  }

  /** A publish whose write raises leaves a hole. */
  lemma HoleLeft(l: Link, topic: Topic, payload: seq<byte>, n: nat)
    requires 0 < n < 65535 && Filled(l, topic, payload, n, {})
    ensures Filled(Next(l, Event.Publish(payload, 1, true)), topic, payload, n + 1, {n + 1})
  {
    NextPidIsTheSuccessor(n);
  }

  lemma PrefixStays(a: seq<byte>, b: seq<byte>, more: seq<byte>)
    requires a <= b
    ensures a <= b + more
  {
  }

  lemma {:induction false} FillAll(l: Link, topic: Topic, payload: seq<byte>, n: nat, k: nat, holes: set<nat>)
    requires n + k <= 65535 && Filled(l, topic, payload, n, holes) && forall x | x in holes :: x <= n
    ensures Filled(Run(l, Fill(payload, k)), topic, payload, n + k, holes)
    decreases k
  {
    if k > 0 {
      FillOne(l, topic, payload, n, holes);
      assert Fill(payload, k)[1..] == Fill(payload, k - 1);
      FillAll(Next(l, Event.Publish(payload, 1, false)), topic, payload, n + 1, k - 1, holes);
    }
  }

  lemma RefusedOnce(l: Link, topic: Topic, payload: seq<byte>)
    requires Filled(l, topic, payload, 65535, {})
    ensures Next(l, Event.Publish(payload, 1, false)) == l.(client := l.client.(pid := 1), refused := 1)
  {
    NextPidIsTheSuccessor(65535);
    assert l.up + [] == l.up;
  }

  lemma FreedOnce(l: Link)
    requires l.client.connected && l.client.pid == 1 && l.client.buf == [] && l.refused == 1
      && l.down == Encode(Puback(1))
    requires forall x :: x in l.client.pending <==> 1 <= x <= 65535
    ensures Refused(Next(l, CarryDown(|Encode(Puback(1))|)))
  {
    DeliverDown(l, Puback(1));
    TwoBytesRoundTrip(1);
  }

  /** One refused publish, then the delivery of the first publish and of its acknowledgement. */
  lemma AfterTheRefusal(l: Link, topic: Topic, payload: seq<byte>)
    requires Filled(l, topic, payload, 65535, {}) && Fits(topic, payload)
    ensures var l1 := Next(l, Event.Publish(payload, 1, false));
      var l2 := Next(l1, CarryUp(|Encode(PublishQos1(topic, 1, payload))|));
      Refused(Next(l2, CarryDown(|Encode(Puback(1))|)))
  {
    RefusedOnce(l, topic, payload);
    var l1 := l.(client := l.client.(pid := 1), refused := 1);
    PublishIsUpPacket(topic, 1, payload);
    DeliverUp(l1, PublishQos1(topic, 1, payload));
    AnswerIsPuback(topic, 1, payload);
    FreedOnce(Next(l1, CarryUp(|Encode(PublishQos1(topic, 1, payload))|)));
  }

  /** One publish was refused, and identifier 1 is the only one free again. */
  ghost predicate Refused(l: Link) {
    l.refused == 1 && l.client.connected && l.client.pid == 1 && forall x :: x in l.client.pending <==> 2 <= x <= 65535
  }

  lemma RefusedAgain(l: Link, payload: seq<byte>)
    requires Refused(l)
    ensures 1 !in l.client.pending && |l.client.pending| == 65534 && !FreeAhead(l.client)
      && PublishStep(l.client, payload, 1).result == -1
  {
    AllButOne(l.client.pending, 65535);
    NextPidIsTheSuccessor(1);
    NextIdAhead(1, 1);
    assert IdAhead(l.client.pid, 1) in l.client.pending;
  }

  lemma AnswerIsPuback(topic: Topic, pid: nat, payload: seq<byte>)
    requires 1 <= pid <= 65535 && Fits(topic, payload)
    ensures EncodeAll(Answers(PublishQos1(topic, pid, payload))) == Encode(Puback(pid))
  {
    var p := PublishQos1(topic, pid, payload);
    PublishIsUpPacket(topic, pid, payload);
    var offset := 2 + FromTwoBytes(p.body[0], p.body[1]);
    var id := p.body[offset..][..2];
    assert id == p.body[offset..offset + 2] && id[0] == p.body[offset] && id[1] == p.body[offset + 1];
    assert TwoBytes(pid) == id;
    Singleton(Encode, Puback(pid));
  }

  lemma {:induction false} RunAppend(l: Link, a: seq<Event>, b: seq<Event>)
    ensures Run(l, a + b) == Run(Run(l, a), b)
    decreases |a|
  {
    if a == [] {
      assert a + b == b;
    } else {
      assert (a + b)[1..] == a[1..] + b;
      RunAppend(Next(l, a[0]), a[1..], b);
    }
  }

  /** The whole run, from a CONNECT that was just written. */
  function FillAndAcknowledge(topic: Topic, connect: Packet, payload: seq<byte>): seq<Event> {
    [CarryUp(|Encode(connect)|), CarryDown(|Encode(CONNACK)|)] + Fill(payload, 65535)
    + [Event.Publish(payload, 1, false), CarryUp(|Encode(PublishQos1(topic, 1, payload))|),
       CarryDown(|Encode(Puback(1))|)]
  }

  lemma RefusedAtTheEnd(topic: Topic, payload: seq<byte>, l: Link)
    requires Idle(l, topic) && Fits(topic, payload)
    ensures var l' := Run(l, Fill(payload, 65535));
      var l1 := Next(l', Event.Publish(payload, 1, false));
      var l2 := Next(l1, CarryUp(|Encode(PublishQos1(topic, 1, payload))|));
      Refused(Next(l2, CarryDown(|Encode(Puback(1))|)))
  {
    FillAll(l, topic, payload, 0, 65535, {});
    AfterTheRefusal(Run(l, Fill(payload, 65535)), topic, payload);
  }

  /**
    All identifiers are used, one more publish is refused, and the first one is acknowledged. Then the
    next publish is refused too, although identifier 1 is free and only 65534 are outstanding.
   */
  lemma RefusedWithAFreeId(topic: Topic, connect: Packet, payload: seq<byte>)
    requires connect.hdr == 0x10 && |connect.body| < MAX_REMAINING && Fits(topic, payload)
    ensures var l := Run(Opened(topic, connect), FillAndAcknowledge(topic, connect, payload));
      && Sound(l) && l.client.connected && l.refused == 1
      && 1 !in l.client.pending && |l.client.pending| == 65534 && !FreeAhead(l.client)
      && PublishStep(l.client, payload, 1).result == -1
  {
    RunIsSound(topic, connect, payload, FillAndAcknowledge(topic, connect, payload));
    Handshake(topic, connect);
    RefusedAtTheEnd(topic, payload,
                    Next(Next(Opened(topic, connect), CarryUp(|Encode(connect)|)), CarryDown(|Encode(CONNACK)|)));
    WholeRun(topic, connect, payload);
    RefusedAgain(Run(Opened(topic, connect), FillAndAcknowledge(topic, connect, payload)), payload);
  }

  lemma WholeRun(topic: Topic, connect: Packet, payload: seq<byte>)
    ensures var l := Next(Next(Opened(topic, connect), CarryUp(|Encode(connect)|)), CarryDown(|Encode(CONNACK)|));
      var l' := Run(l, Fill(payload, 65535));
      Run(Opened(topic, connect), FillAndAcknowledge(topic, connect, payload))
      == Next(Next(Next(l', Event.Publish(payload, 1, false)), CarryUp(|Encode(PublishQos1(topic, 1, payload))|)),
              CarryDown(|Encode(Puback(1))|))
  {
    var l0 := Opened(topic, connect);
    var a, b := [CarryUp(|Encode(connect)|), CarryDown(|Encode(CONNACK)|)], Fill(payload, 65535);
    var c := [Event.Publish(payload, 1, false), CarryUp(|Encode(PublishQos1(topic, 1, payload))|),
              CarryDown(|Encode(Puback(1))|)];
    RunAppend(l0, a + b, c);
    RunAppend(l0, a, b);
    RunTwo(l0, a[0], a[1]);
    RunThree(Run(Run(l0, a), b), c[0], c[1], c[2]);
  }

  lemma RunTwo(l: Link, e: Event, f: Event)
    ensures Run(l, [e, f]) == Next(Next(l, e), f)
  {
    assert [e, f][1..] == [f] && [f][1..] == [];
    assert Run(l, [e, f]) == Run(Next(l, e), [f]);
  }

  lemma RunThree(l: Link, e: Event, f: Event, g: Event)
    ensures Run(l, [e, f, g]) == Next(Next(Next(l, e), f), g)
  {
    assert [e, f, g][1..] == [f, g];
    RunTwo(Next(l, e), f, g);
  }

  /** The run with a raised write: the second publish raises, the others go out. */
  function FillWithAHole(connect: Packet, payload: seq<byte>): seq<Event> {
    [CarryUp(|Encode(connect)|), CarryDown(|Encode(CONNACK)|)]
    + [Event.Publish(payload, 1, false), Event.Publish(payload, 1, true)] + Fill(payload, 65533)
  }

  lemma HoleIsLeft(topic: Topic, payload: seq<byte>, l1: Link)
    requires Idle(l1, topic)
    ensures var l3 := Next(Next(l1, Event.Publish(payload, 1, false)), Event.Publish(payload, 1, true));
      Filled(Run(l3, Fill(payload, 65533)), topic, payload, 65535, {2})
  {
    FillOne(l1, topic, payload, 0, {});
    var l2 := Next(l1, Event.Publish(payload, 1, false));
    HoleLeft(l2, topic, payload, 1);
    FillAll(Next(l2, Event.Publish(payload, 1, true)), topic, payload, 2, 65533, {2});
  }

  /** Every run of events of this kind keeps the link sound. */
  lemma RunIsSound(topic: Topic, connect: Packet, payload: seq<byte>, es: seq<Event>)
    requires connect.hdr == 0x10 && |connect.body| < MAX_REMAINING && Fits(topic, payload)
    requires forall e | e in es && e.Publish? :: e.payload == payload
    ensures Sound(Run(Opened(topic, connect), es))
  {
    OpenedIsSound(topic, connect);
    PendingIsWhatIsInFlight(Opened(topic, connect), es);
  }

  /**
    No publish was ever refused, but the write of the second one raised. After all identifiers have been
    asked for the next publish is refused, although identifier 2 is free.
   */
  lemma RefusedAfterARaisedWrite(topic: Topic, connect: Packet, payload: seq<byte>)
    requires connect.hdr == 0x10 && |connect.body| < MAX_REMAINING && Fits(topic, payload)
    ensures var l := Run(Opened(topic, connect), FillWithAHole(connect, payload));
      && Sound(l) && l.client.connected && l.refused == 0 && l.raised == 1
      && 2 !in l.client.pending && |l.client.pending| == 65534 && !FreeAhead(l.client)
      && PublishStep(l.client, payload, 1).result == -1
  {
    RunIsSound(topic, connect, payload, FillWithAHole(connect, payload));
    Handshake(topic, connect);
    HoleIsLeft(topic, payload,
               Next(Next(Opened(topic, connect), CarryUp(|Encode(connect)|)), CarryDown(|Encode(CONNACK)|)));
    RunWithAHole(topic, connect, payload);
    RefusedAtTheHole(Run(Opened(topic, connect), FillWithAHole(connect, payload)), topic, payload);
  }

  lemma RunWithAHole(topic: Topic, connect: Packet, payload: seq<byte>)
    ensures var l1 := Next(Next(Opened(topic, connect), CarryUp(|Encode(connect)|)), CarryDown(|Encode(CONNACK)|));
      var l3 := Next(Next(l1, Event.Publish(payload, 1, false)), Event.Publish(payload, 1, true));
      Run(Opened(topic, connect), FillWithAHole(connect, payload)) == Run(l3, Fill(payload, 65533))
  {
    var l0 := Opened(topic, connect);
    var a := [CarryUp(|Encode(connect)|), CarryDown(|Encode(CONNACK)|)];
    var b := [Event.Publish(payload, 1, false), Event.Publish(payload, 1, true)];
    RunAppend(l0, a + b, Fill(payload, 65533));
    RunAppend(l0, a, b);
    RunTwo(l0, a[0], a[1]);
    RunTwo(Run(l0, a), b[0], b[1]);
  }

  lemma RefusedAtTheHole(l: Link, topic: Topic, payload: seq<byte>)
    requires Filled(l, topic, payload, 65535, {2})
    ensures l.raised == 1 && 2 !in l.client.pending && |l.client.pending| == 65534 && !FreeAhead(l.client)
    ensures PublishStep(l.client, payload, 1).result == -1
  {
    NextPidIsTheSuccessor(65535);
    NextIdAhead(65535, 1);
    var c := l.client;
    assert 1 in c.pending;
    var rest := c.pending - {1};
    AllButTwo(c.pending);
    assert IdAhead(c.pid, 1) in c.pending;
  }

  lemma AllButTwo(s: set<nat>)
    requires forall x :: x in s <==> 1 <= x <= 65535 && x != 2
    ensures |s| == 65534
  {
    var t := s - {1} + {2};
    assert forall x :: x in t <==> 2 <= x <= 65535;
    AllButOne(t, 65535);
    assert s == t - {2} + {1};
  }

  lemma {:induction false} AllButOne(s: set<nat>, n: nat)
    requires n >= 1 && forall x :: x in s <==> 2 <= x <= n
    ensures |s| == n - 1
    decreases n
  {
    if n == 1 {
      assert s == {};
    } else {
      AllButOne(s - {n}, n - 1);
    }
  }
}
