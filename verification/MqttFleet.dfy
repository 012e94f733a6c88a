/**
  A worker and its sinks as one transition system: the books of the worker against what the sinks
  decoded, for every interleaving of dispatches and deliveries over all connections.
 */
module MqttFleet {
  import opened Wrappers
  import opened Framing
  import opened MqttCodec
  import opened MqttClient
  import opened Sums
  import opened Numbers
  import L = MqttLink
  import D = MqttSender

  datatype Fleet = Fleet(sender: D.Sender, links: seq<L.Link>)

  datatype Event =
    | Send(idx: nat, payload: seq<byte>, raised: Option<string>)
    | Ping(idx: nat)
    | CarryUp(idx: nat, n: nat)
    | CarryDown(idx: nat, n: nat)

  /** The step a device's link takes, and the one the worker's books take with it. */
  function LinkEvent(qos: nat, e: Event): L.Event {
    match e
    case Send(_, payload, raised) => L.Publish(payload, qos, raised.Some?)
    case Ping(_) => L.Event.Ping
    case CarryUp(_, n) => L.Event.CarryUp(n)
    case CarryDown(_, n) => L.Event.CarryDown(n)
  }

  function Next(f: Fleet, e: Event): Fleet {
    if e.idx >= |f.links| || |f.sender.conns| != |f.links| then f else
    var l := f.links[e.idx];
    var links := f.links[e.idx := L.Next(l, LinkEvent(f.sender.qos, e))];
    match e
    case Send(idx, payload, raised) => Fleet(D.DispatchStep(f.sender, idx, payload, raised), links)
    case CarryDown(idx, n) => Fleet(D.ReceiveStep(f.sender, idx, l.down[..Min(n, |l.down|)]), links)
    case Ping(_) => Fleet(f.sender, links)
    case CarryUp(_, _) => Fleet(f.sender, links)
  }

  function Run(f: Fleet, es: seq<Event>): Fleet
    decreases |es|
  {
    if es == [] then f else Run(Next(f, es[0]), es[1..])
  }

  function Placed(l: L.Link): nat { l.published + l.fired }
  function Settled(l: L.Link): nat { l.acked + l.fired }
  function Decoded(l: L.Link): nat { l.sink.counted }

  /** The books agree with the wires, and every wire is sound. */
  ghost predicate Consistent(f: Fleet) {
    && |f.sender.conns| == |f.links|
    && (forall i | 0 <= i < |f.links| :: f.sender.conns[i] == Some(f.links[i].client) && L.Sound(f.links[i]))
    && f.sender.attempted == Sum(Placed, f.links)
    && f.sender.accepted == Sum(Settled, f.links)
  }

  ghost predicate Sendable(f: Fleet, e: Event) {
    e.Send? && e.raised.None? && e.idx < |f.links| ==> L.Fits(f.links[e.idx].client.topic, e.payload)
  }

  ghost predicate AllSendable(topics: seq<Topic>, es: seq<Event>) {
    forall e | e in es && e.Send? && e.raised.None? && e.idx < |topics| :: L.Fits(topics[e.idx], e.payload)
  }

  ghost predicate TopicsAre(f: Fleet, topics: seq<Topic>) {
    |topics| == |f.links| && forall i | 0 <= i < |topics| :: f.links[i].client.topic == topics[i]
  }

  predicate IsOpened(l: L.Link, topic: Topic, connect: Packet) {
    connect.hdr == 0x10 && |connect.body| < MAX_REMAINING && l == L.Opened(topic, connect)
  }

  /** All sockets open, their CONNECT packets on the way. */
  ghost predicate IsStart(f: Fleet) {
    && |f.sender.conns| == |f.links| && f.sender == D.Start(f.sender.qos, f.sender.conns)
    && forall i | 0 <= i < |f.links| ::
         && f.sender.conns[i] == Some(f.links[i].client)
         && exists topic: Topic, connect :: IsOpened(f.links[i], topic, connect)
  }

  lemma StartIsConsistent(f: Fleet)
    requires IsStart(f)
    ensures Consistent(f)
  {
    forall i | 0 <= i < |f.links|
      ensures L.Sound(f.links[i]) && Placed(f.links[i]) == 0 && Settled(f.links[i]) == 0
    {
      assert f.sender.conns[i] == Some(f.links[i].client);
      var topic: Topic, connect :| IsOpened(f.links[i], topic, connect);
      L.OpenedIsSound(topic, connect);
    }
    D.SumOfZeros(Placed, f.links);
    D.SumOfZeros(Settled, f.links);
  }

  lemma SendFollowsTheLink(s: D.Sender, l: L.Link, idx: nat, payload: seq<byte>, raised: Option<string>)
    requires idx < |s.conns| && s.conns[idx] == Some(l.client)
    ensures var s', l' := D.DispatchStep(s, idx, payload, raised), L.Next(l, L.Publish(payload, s.qos, raised.Some?));
      && s'.conns == s.conns[idx := Some(l'.client)]
      && s'.attempted + Placed(l) == s.attempted + Placed(l')
      && s'.accepted + Settled(l) == s.accepted + Settled(l')
  {
    assert s.conns[idx := Some(l.client)] == s.conns;
  }

  lemma BytesFollowTheLink(s: D.Sender, l: L.Link, idx: nat, n: nat)
    requires idx < |s.conns| && s.conns[idx] == Some(l.client)
    ensures var s', l' := D.ReceiveStep(s, idx, l.down[..Min(n, |l.down|)]), L.Next(l, L.CarryDown(n));
      && s'.conns == s.conns[idx := Some(l'.client)] && s'.attempted == s.attempted && Placed(l') == Placed(l)
      && s'.accepted + Settled(l) == s.accepted + Settled(l')
  {
  }

  lemma OthersLeaveTheClient(l: L.Link, e: L.Event)
    requires e.Ping? || e.CarryUp?
    ensures L.Next(l, e).client == l.client && Placed(L.Next(l, e)) == Placed(l) && Settled(L.Next(l, e)) == Settled(l)
  {
  }

  lemma SameClient(conns: seq<Option<Client>>, idx: nat, c: Client)
    requires idx < |conns| && conns[idx] == Some(c)
    ensures conns[idx := Some(c)] == conns
  {
  }

  /** The books of the worker move exactly as the link of the device does. */
  lemma BooksFollowTheLink(f: Fleet, e: Event)
    requires Consistent(f) && e.idx < |f.links|
    ensures var l, s, s' := f.links[e.idx], f.sender, Next(f, e).sender;
      var l' := L.Next(l, LinkEvent(s.qos, e));
      && s'.conns == s.conns[e.idx := Some(l'.client)]
      && s'.attempted + Placed(l) == s.attempted + Placed(l')
      && s'.accepted + Settled(l) == s.accepted + Settled(l')
  {
    var l, s := f.links[e.idx], f.sender;
    SameClient(s.conns, e.idx, l.client);
    match e
    case Send(idx, payload, raised) => SendFollowsTheLink(s, l, idx, payload, raised);
    case CarryDown(idx, n) => BytesFollowTheLink(s, l, idx, n);
    case Ping(_) => OthersLeaveTheClient(l, LinkEvent(s.qos, e));
    case CarryUp(_, _) => OthersLeaveTheClient(l, LinkEvent(s.qos, e));
  }

  lemma NextLinks(f: Fleet, e: Event)
    requires |f.sender.conns| == |f.links| && e.idx < |f.links|
    ensures Next(f, e).links == f.links[e.idx := L.Next(f.links[e.idx], LinkEvent(f.sender.qos, e))]
  {
  }

  lemma StepIsConsistent(f: Fleet, e: Event)
    requires Consistent(f) && Sendable(f, e)
    ensures Consistent(Next(f, e))
  {
    if e.idx < |f.links| {
      var l, ev := f.links[e.idx], LinkEvent(f.sender.qos, e);
      var l', s' := L.Next(l, ev), Next(f, e).sender;
      L.StepIsSound(l, ev);
      BooksFollowTheLink(f, e);
      NextLinks(f, e);
      LinkStep(f, e.idx, l', s');
      assert Next(f, e) == Fleet(s', f.links[e.idx := l']);
    }
  }

  lemma TopicsStay(f: Fleet, e: Event, topics: seq<Topic>)
    requires Consistent(f) && TopicsAre(f, topics)
    ensures TopicsAre(Next(f, e), topics)
  {
    if e.idx < |f.links| {
      NextLinks(f, e);
      L.TopicIsFixed(f.links[e.idx], LinkEvent(f.sender.qos, e));
    }
  }

  lemma LinkStep(f: Fleet, idx: nat, l': L.Link, s': D.Sender)
    requires Consistent(f) && idx < |f.links| && L.Sound(l')
    requires s'.conns == f.sender.conns[idx := Some(l'.client)]
    requires s'.attempted + Placed(f.links[idx]) == f.sender.attempted + Placed(l')
    requires s'.accepted + Settled(f.links[idx]) == f.sender.accepted + Settled(l')
    ensures Consistent(Fleet(s', f.links[idx := l']))
  {
    SumUpdate(Placed, f.links, idx, l');
    SumUpdate(Settled, f.links, idx, l');
    LinkReplaced(f, idx, l', s');
  }

  lemma LinkReplaced(f: Fleet, idx: nat, l': L.Link, s': D.Sender)
    requires Consistent(f) && idx < |f.links| && L.Sound(l')
    requires s'.conns == f.sender.conns[idx := Some(l'.client)]
    requires s'.attempted == Sum(Placed, f.links[idx := l']) && s'.accepted == Sum(Settled, f.links[idx := l'])
    ensures Consistent(Fleet(s', f.links[idx := l']))
  {
  }

  /** Worker and sinks stay consistent over every run without a lost connection. */
  lemma {:induction false} RunsAreConsistent(f: Fleet, topics: seq<Topic>, es: seq<Event>)
    requires Consistent(f) && TopicsAre(f, topics) && AllSendable(topics, es)
    ensures Consistent(Run(f, es)) && TopicsAre(Run(f, es), topics)
    decreases |es|
  {
    if es != [] {
      StepIsConsistent(f, es[0]);
      TopicsStay(f, es[0], topics);
      RunsAreConsistent(Next(f, es[0]), topics, es[1..]);
    }
  }

  /**
    Once every channel is empty, the worker has nothing in flight and reports as accepted exactly
    what it attempted, which is what the sinks decoded.
   */
  lemma DrainedFleetAgrees(f: Fleet)
    requires Consistent(f)
    requires forall l | l in f.links :: l.up == [] && l.down == []
    ensures D.Inflight(f.sender) == 0
    ensures f.sender.attempted == f.sender.accepted == Sum(Decoded, f.links)
  {
    forall l | l in f.links
      ensures l.client.pending == {} && Placed(l) == Settled(l) == Decoded(l)
    {
      L.DrainedMeansDone(l);
    }
    SumPointwise(Placed, Settled, f.links);
    SumPointwise(Placed, Decoded, f.links);
    forall c | c in f.sender.conns
      ensures D.PendingOf(c) == 0
    {
      var i :| 0 <= i < |f.links| && f.sender.conns[i] == c;
      assert f.links[i] in f.links;
    }
    D.SumOfZeros(D.PendingOf, f.sender.conns);
  }

  /**
    From the start: whatever was dispatched and delivered in whatever order, the books agree with the
    wires, and once the channels are empty every message sent was decoded by a sink and accepted.
   */
  lemma FleetDeliversEverything(f: Fleet, topics: seq<Topic>, es: seq<Event>)
    requires IsStart(f) && TopicsAre(f, topics) && AllSendable(topics, es)
    ensures var end := Run(f, es);
      && Consistent(end)
      && ((forall l | l in end.links :: l.up == [] && l.down == []) ==>
            D.Inflight(end.sender) == 0 && end.sender.attempted == end.sender.accepted == Sum(Decoded, end.links))
  {
    StartIsConsistent(f);
    RunsAreConsistent(f, topics, es);
    var end := Run(f, es);
    if forall l | l in end.links :: l.up == [] && l.down == [] {
      DrainedFleetAgrees(end);
    }
  }
}
