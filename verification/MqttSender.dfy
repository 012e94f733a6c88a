/**
  The raw MQTT engine of one worker: many connections and one set of books. Every message handed to
  `dispatch` must end in exactly one counter, whatever the broker sends and whichever sockets die.
 */
module MqttSender {
  import opened Wrappers
  import opened Framing
  import opened MqttCodec
  import opened MqttClient
  import opened MapSums
  import opened Sums

  /** `conns[i]` is `None` when the socket of device `i` never opened. */
  datatype Sender = Sender(
    qos: nat,
    conns: seq<Option<Client>>,
    dispatched: nat,
    attempted: nat,
    accepted: nat,
    failed: map<string, nat>,
    disconnects: nat)

  const NO_CONN := "mqtt_no_conn"
  const PID_EXHAUSTED := "mqtt_pid_exhausted"
  const LOST_ON_DISCONNECT := "puback_lost_on_disconnect"
  const MISSING := "puback_missing"

  function PendingOf(c: Option<Client>): nat {
    match c case None => 0 case Some(c) => |c.pending|
  }

  function Inflight(s: Sender): nat { Sum(PendingOf, s.conns) }

  /** How an exception of the given class is counted. */
  function Exc(name: string): string { "exc_" + name }

  /**
    One message of the schedule: `dispatch`, and the count of it in `run_schedule`. `raised` is the
    class of the exception that writing to the transport raises, if it does.
   */
  function DispatchStep(s: Sender, idx: nat, payload: seq<byte>, raised: Option<string>): Sender
    requires idx < |s.conns|
  {
    var s := s.(dispatched := s.dispatched + 1);
    if s.conns[idx].None? || !s.conns[idx].value.connected then
      s.(failed := Bump(s.failed, NO_CONN, 1))
    else if raised.Some? && Writes(s.conns[idx].value, s.qos) then
      s.(conns := s.conns[idx := Some(RaiseStep(s.conns[idx].value, s.qos))],
         failed := Bump(s.failed, Exc(raised.value), 1))
    else
      var sent := PublishStep(s.conns[idx].value, payload, s.qos);
      var s := s.(conns := s.conns[idx := Some(sent.client)]);
      if sent.result < 0 then
        s.(failed := Bump(s.failed, PID_EXHAUSTED, 1))
      else
        s.(attempted := s.attempted + 1, accepted := s.accepted + if s.qos == 0 then 1 else 0)
  }

  function ReceiveStep(s: Sender, idx: nat, data: seq<byte>): Sender
    requires idx < |s.conns|
  {
    if s.conns[idx].None? then s else
    var h := Receive(s.conns[idx].value, data);
    s.(conns := s.conns[idx := Some(h.client)], accepted := s.accepted + h.acks)
  }

  function LoseStep(s: Sender, idx: nat): Sender
    requires idx < |s.conns|
  {
    if s.conns[idx].None? then s else
    var c := s.conns[idx].value;
    s.(conns := s.conns[idx := Some(Lose(c))],
       disconnects := s.disconnects + (if c.connected then 1 else 0),
       failed := if |c.pending| > 0 then Bump(s.failed, LOST_ON_DISCONNECT, |c.pending|) else s.failed)
  }

  /** `drain` after its deadline, in QoS 1: what is still unanswered is reported as missing. */
  function DrainStep(s: Sender): Sender {
    if Inflight(s) > 0 then s.(failed := Bump(s.failed, MISSING, Inflight(s))) else s
  }

  datatype Event =
    | Dispatch(idx: nat, payload: seq<byte>, raised: Option<string>)
    | Data(idx: nat, data: seq<byte>)
    | ConnLost(idx: nat)

  /** A connection that is lost receives nothing more. */
  function Next(s: Sender, e: Event): Sender {
    if e.idx >= |s.conns| then s else
    match e
    case Dispatch(idx, payload, raised) => DispatchStep(s, idx, payload, raised)
    case Data(idx, data) => if s.conns[idx].Some? && !s.conns[idx].value.closed then ReceiveStep(s, idx, data) else s
    case ConnLost(idx) => LoseStep(s, idx)
  }

  function Run(s: Sender, es: seq<Event>): Sender
    decreases |es|
  {
    if es == [] then s else Run(Next(s, es[0]), es[1..])
  }

  function Start(qos: nat, conns: seq<Option<Client>>): Sender {
    Sender(qos, conns, 0, 0, 0, map[], 0)
  }

  /** Every dispatched message is in exactly one of the books. */
  ghost predicate Balanced(s: Sender) {
    && s.dispatched + Get(s.failed, LOST_ON_DISCONNECT) == s.attempted + Total(s.failed)
    && MISSING !in s.failed && (forall r | r in s.failed :: IsReason(r))
    && if s.qos == 0 then s.attempted == s.accepted && Inflight(s) == 0
       && LOST_ON_DISCONNECT !in s.failed
       else s.attempted == s.accepted + Get(s.failed, LOST_ON_DISCONNECT) + Inflight(s)
  }

  predicate IsReason(r: string) {
    r in [NO_CONN, PID_EXHAUSTED, LOST_ON_DISCONNECT, MISSING] || "exc_" <= r
  }

  class RawMqttSender {
    const qos: nat
    var conns: seq<MqttConnection?>
    var attempted: nat
    var accepted: nat
    var failed: map<string, nat>
    var disconnects: nat

    constructor (qos: nat, conns: seq<MqttConnection?>)
      requires forall c | c in conns && c != null :: c.Valid()
      requires forall i, j | 0 <= i < j < |conns| && conns[i] != null :: conns[i] != conns[j]
      ensures Valid() && this.conns == conns
      ensures View(0) == Start(qos, View(0).conns)
    {
      this.qos, this.conns, attempted, accepted, failed, disconnects := qos, conns, 0, 0, map[], 0;
    }

    ghost predicate Valid()
      reads this
    {
      && (forall c | c in conns && c != null :: c.Valid())
      && (forall i, j | 0 <= i < j < |conns| && conns[i] != null :: conns[i] != conns[j])
    }

    function View(dispatched: nat): Sender
      reads this, conns
    {
      var views := seq(|conns|, i requires 0 <= i < |conns| reads this, conns =>
        if conns[i] == null then None else Some(conns[i].View()));
      Sender(qos, views, dispatched, attempted, accepted, failed, disconnects)
    }

    /** `_fail`. */
    method Fail(reason: string, n: nat)
      modifies this`failed
      ensures failed == Bump(old(failed), reason, n)
    {
      failed := failed[reason := (if reason in failed then failed[reason] else 0) + n];
    }

    /** `RawMqttClient.inflight`. */
    method InflightCount() returns (n: nat)
      ensures n == Inflight(View(0))
    {
      n := 0;
      ghost var views := View(0).conns;
      for i := 0 to |conns|
        invariant n + Sum(PendingOf, views[i..]) == Sum(PendingOf, views)
      {
        assert views[i..][1..] == views[i + 1..];
        if conns[i] != null {
          n := n + |conns[i].pending|;
        }
      }
    }

    /** `dispatch`; the schedule counts the message as dispatched whatever becomes of it. */
    method Dispatch(idx: nat, payload: seq<byte>, raised: Option<string>, ghost dispatched: nat)
      requires Valid() && idx < |conns|
      modifies this, conns[idx]
      ensures Valid() && conns == old(conns)
      ensures View(dispatched + 1) == DispatchStep(old(View(dispatched)), idx, payload, raised)
    {
      var conn := conns[idx];
      if conn == null || !conn.connected {
        Fail(NO_CONN, 1);
        return;
      }
      var pid := conn.Publish(payload, qos, raised.Some?);
      if pid == None {
        Fail(Exc(raised.value), 1);
        return;
      }
      if pid.value < 0 {
        Fail(PID_EXHAUSTED, 1);
        return;
      }
      attempted := attempted + 1;
      if qos == 0 {
        accepted := accepted + 1;
      }
    }

    /** Bytes from the broker on one connection, with the `_on_puback` callbacks they cause. */
    method OnData(idx: nat, data: seq<byte>, ghost dispatched: nat)
      requires Valid() && idx < |conns|
      modifies this, conns[idx]
      ensures Valid() && conns == old(conns)
      ensures View(dispatched) == ReceiveStep(old(View(dispatched)), idx, data)
    {
      var conn := conns[idx];
      if conn != null {
        var acks := conn.DataReceived(data);
        accepted := accepted + acks;
      }
    }

    /** A lost connection, with the `disconnect` and `lost_pending` events it reports. */
    method OnConnLost(idx: nat, ghost dispatched: nat)
      requires Valid() && idx < |conns|
      modifies this, conns[idx]
      ensures Valid() && conns == old(conns)
      ensures View(dispatched) == LoseStep(old(View(dispatched)), idx)
    {
      var conn := conns[idx];
      if conn != null {
        var was, lost := conn.ConnectionLost();
        if was {
          disconnects := disconnects + 1;
        }
        if lost > 0 {
          Fail(LOST_ON_DISCONNECT, lost);
        }
      }
    }

    /** The end of `drain`: the wait is over, whoever has not answered is missing. */
    method Drain(ghost dispatched: nat)
      requires Valid()
      modifies this`failed
      ensures Valid() && View(dispatched) == DrainStep(old(View(dispatched)))
    {
      var n := InflightCount();
      if n > 0 {
        Fail(MISSING, n);
      }
    }
  }

  // ---- the books balance ----

  /** Each `on_puback` callback takes exactly one identifier out of `pending`, whatever arrives. */
  lemma {:induction false} AbsorbConserves(c: Client, ps: seq<Packet>)
    ensures AbsorbAll(c, ps).acks + |AbsorbAll(c, ps).client.pending| == |c.pending|
    decreases |ps|
  {
    if ps != [] {
      AbsorbConserves(Absorb(c, ps[0]).client, ps[1..]);
    }
  }

  lemma ReceiveConserves(c: Client, data: seq<byte>)
    ensures Receive(c, data).acks + |Receive(c, data).client.pending| == |c.pending|
  {
    DrainIsPacketwise(c.(buf := c.buf + data));
    AbsorbConserves(c.(buf := Take(PACKETS, c.buf + data).rest), Take(PACKETS, c.buf + data).frames);
  }

  lemma ExceptionsAreApart(name: string)
    ensures Exc(name) !in [NO_CONN, PID_EXHAUSTED, LOST_ON_DISCONNECT, MISSING] && IsReason(Exc(name))
  {
    assert Exc(name)[0] == 'e' && NO_CONN[0] == PID_EXHAUSTED[0] == 'm' && LOST_ON_DISCONNECT[0] == MISSING[0] == 'p';
  }

  /** A message that does not get as far as the wire is one more dispatched and one more failed. */
  lemma RefusalBalances(s: Sender, conns: seq<Option<Client>>, reason: string)
    requires Balanced(s) && IsReason(reason) && reason !in [LOST_ON_DISCONNECT, MISSING]
      && Sum(PendingOf, conns) == Inflight(s)
    ensures Balanced(s.(dispatched := s.dispatched + 1, conns := conns, failed := Bump(s.failed, reason, 1)))
  {
    TotalBump(s.failed, reason, 1);
  }

  lemma SentBalances(s: Sender, idx: nat, c: Client)
    requires Balanced(s) && idx < |s.conns|
      && PendingOf(Some(c)) == PendingOf(s.conns[idx]) + if s.qos == 0 then 0 else 1
    ensures Balanced(s.(dispatched := s.dispatched + 1, conns := s.conns[idx := Some(c)],
                        attempted := s.attempted + 1, accepted := s.accepted + if s.qos == 0 then 1 else 0))
  {
    SumUpdate(PendingOf, s.conns, idx, Some(c));
  }

  lemma RaisedBalances(s: Sender, idx: nat, c: Client, name: string)
    requires Balanced(s) && idx < |s.conns| && s.conns[idx] == Some(c)
    ensures Balanced(s.(dispatched := s.dispatched + 1, conns := s.conns[idx := Some(RaiseStep(c, s.qos))],
                        failed := Bump(s.failed, Exc(name), 1)))
  {
    ExceptionsAreApart(name);
    SumUpdate(PendingOf, s.conns, idx, Some(RaiseStep(c, s.qos)));
    RefusalBalances(s, s.conns[idx := Some(RaiseStep(c, s.qos))], Exc(name));
  }

  lemma PublishBalances(s: Sender, idx: nat, c: Client, payload: seq<byte>)
    requires Balanced(s) && idx < |s.conns| && s.conns[idx] == Some(c)
    ensures var sent := PublishStep(c, payload, s.qos);
      var s1 := s.(dispatched := s.dispatched + 1, conns := s.conns[idx := Some(sent.client)]);
      Balanced(if sent.result < 0 then s1.(failed := Bump(s.failed, PID_EXHAUSTED, 1))
               else s1.(attempted := s.attempted + 1, accepted := s.accepted + if s.qos == 0 then 1 else 0))
  {
    var sent := PublishStep(c, payload, s.qos);
    if sent.result < 0 {
      SumUpdate(PendingOf, s.conns, idx, Some(sent.client));
      RefusalBalances(s, s.conns[idx := Some(sent.client)], PID_EXHAUSTED);
    } else {
      SentBalances(s, idx, sent.client);
    }
  }

  lemma DispatchBalances(s: Sender, idx: nat, payload: seq<byte>, raised: Option<string>)
    requires Balanced(s) && idx < |s.conns|
    ensures Balanced(DispatchStep(s, idx, payload, raised))
  {
    if s.conns[idx].None? || !s.conns[idx].value.connected {
      RefusalBalances(s, s.conns, NO_CONN);
    } else if raised.Some? && Writes(s.conns[idx].value, s.qos) {
      RaisedBalances(s, idx, s.conns[idx].value, raised.value);
    } else {
      PublishBalances(s, idx, s.conns[idx].value, payload);
    }
  }

  lemma LossBalances(s: Sender, conns: seq<Option<Client>>, lost: nat, disconnects: nat)
    requires Balanced(s) && Sum(PendingOf, conns) + lost == Inflight(s)
    ensures Balanced(s.(conns := conns, disconnects := disconnects,
                        failed := if lost > 0 then Bump(s.failed, LOST_ON_DISCONNECT, lost) else s.failed))
  {
    TotalBump(s.failed, LOST_ON_DISCONNECT, lost);
  }

  lemma LoseBalances(s: Sender, idx: nat)
    requires Balanced(s) && idx < |s.conns|
    ensures Balanced(LoseStep(s, idx))
  {
    if s.conns[idx].Some? {
      var c := s.conns[idx].value;
      SumUpdate(PendingOf, s.conns, idx, Some(Lose(c)));
      LossBalances(s, s.conns[idx := Some(Lose(c))], |c.pending|, s.disconnects + if c.connected then 1 else 0);
    }
  }

  lemma StepBalances(s: Sender, e: Event)
    requires Balanced(s)
    ensures Balanced(Next(s, e)) && Next(s, e).qos == s.qos
  {
    if e.idx < |s.conns| {
      match e
      case Dispatch(idx, payload, raised) => DispatchBalances(s, idx, payload, raised);
      case ConnLost(idx) => LoseBalances(s, idx);
      case Data(idx, data) =>
        if s.conns[idx].Some? {
          ReceiveConserves(s.conns[idx].value, data);
          SumUpdate(PendingOf, s.conns, idx, Some(Receive(s.conns[idx].value, data).client));
        }
    }
  }

  /** Conservation: over every run, whatever the broker sends and whichever connections are lost. */
  lemma {:induction false} BooksBalance(s: Sender, es: seq<Event>)
    requires Balanced(s)
    ensures Balanced(Run(s, es)) && Run(s, es).qos == s.qos
    decreases |es|
  {
    if es != [] {
      StepBalances(s, es[0]);
      BooksBalance(Next(s, es[0]), es[1..]);
    }
  }

  lemma {:induction false} NothingPendingAtFirst(qos: nat, conns: seq<Option<Client>>)
    requires forall c | c in conns :: PendingOf(c) == 0
    ensures Balanced(Start(qos, conns))
  {
    SumPointwise(PendingOf, (c: Option<Client>) => 0, conns);
    SumOfZeros((c: Option<Client>) => 0, conns);
  }

  lemma {:induction false} SumOfZeros<T>(f: T -> nat, xs: seq<T>)
    requires forall x | x in xs :: f(x) == 0
    ensures Sum(f, xs) == 0
  {
    if xs != [] {
      SumOfZeros(f, xs[1..]);
    }
  }

  lemma DrainBalances(s: Sender)
    requires Balanced(s)
    ensures var d := DrainStep(s);
      && d.dispatched == d.accepted + Total(d.failed) && (forall r | r in d.failed :: IsReason(r))
      && d.attempted == d.accepted + Get(d.failed, LOST_ON_DISCONNECT) + Get(d.failed, MISSING)
      && Get(d.failed, MISSING) == Inflight(s)
  {
    TotalBump(s.failed, MISSING, Inflight(s));
  }

  /**
    After any run and `drain`, each dispatched message is in exactly one final bucket: accepted, or
    failed for one of the known reasons.
   */
  lemma EveryMessageInOneBucket(qos: nat, conns: seq<Option<Client>>, es: seq<Event>)
    requires forall c | c in conns :: PendingOf(c) == 0
    ensures var s := Run(Start(qos, conns), es);
      var d := DrainStep(s);
      && d.dispatched == d.accepted + Total(d.failed) && (forall r | r in d.failed :: IsReason(r))
      && d.attempted == d.accepted + Get(d.failed, LOST_ON_DISCONNECT) + Get(d.failed, MISSING)
      && Get(d.failed, MISSING) == Inflight(s)
  {
    NothingPendingAtFirst(qos, conns);
    BooksBalance(Start(qos, conns), es);
    DrainBalances(Run(Start(qos, conns), es));
  }
}
