/**
  Which counter an MQTT message ends in: over every run of a worker, each reason is booked for the
  messages it belongs to and for no others.
 */
module MqttReasons {
  import opened Wrappers
  import opened MapSums
  import opened Sums
  import opened MqttClient
  import opened MqttSender

  /** What becomes of a message that is dispatched now; `None` when it goes out. */
  function Fate(s: Sender, e: Event): Option<string>
    requires e.Dispatch? && e.idx < |s.conns|
  {
    var conn := s.conns[e.idx];
    if conn.None? || !conn.value.connected then Some("mqtt_no_conn")
    else if s.qos > 0 && NextPid(conn.value.pid) in conn.value.pending then Some("mqtt_pid_exhausted")
    else if e.raised.Some? then Some("exc_" + e.raised.value)
    else None
  }

  /** The fates of the messages of a run, in order. */
  function Fates(s: Sender, es: seq<Event>): seq<Option<string>>
    decreases |es|
  {
    if es == [] then [] else
    (if es[0].Dispatch? && es[0].idx < |s.conns| then [Fate(s, es[0])] else []) + Fates(Next(s, es[0]), es[1..])
  }

  /** The messages that were unanswered when their connection was lost. */
  function LostIn(s: Sender, es: seq<Event>): nat
    decreases |es|
  {
    if es == [] then 0 else
    (if es[0].ConnLost? && es[0].idx < |s.conns| then PendingOf(s.conns[es[0].idx]) else 0)
    + LostIn(Next(s, es[0]), es[1..])
  }

  function Equals(fate: Option<string>): Option<string> -> bool { (f: Option<string>) => f == fate }

  const LOST := "puback_lost_on_disconnect"

  /** The counters after a run, counted from those before. */
  ghost predicate CountedAs(s: Sender, s': Sender, fates: seq<Option<string>>, lost: nat) {
    && s'.attempted == s.attempted + Count(Equals(None), fates)
    && Get(s'.failed, LOST) == Get(s.failed, LOST) + lost
    && forall r | r != LOST :: Get(s'.failed, r) == Get(s.failed, r) + Count(Equals(Some(r)), fates)
  }

  lemma FateIsNotLost(s: Sender, e: Event)
    requires e.Dispatch? && e.idx < |s.conns|
    ensures Fate(s, e) != Some(LOST)
  {
    var fate := Fate(s, e);
    assert LOST[0] == 'p';
    assert fate.Some? ==> fate.value[0] == 'm' || fate.value[0] == 'e';
  }

  lemma OneFate(fate: Option<string>)
    ensures forall r :: Count(Equals(r), [fate]) == if fate == r then 1 else 0
  {
    forall r
      ensures Count(Equals(r), [fate]) == if fate == r then 1 else 0
    {
      CountOne(Equals(r), fate);
    }
  }

  lemma StepIsCounted(s: Sender, e: Event)
    requires e.idx < |s.conns|
    ensures CountedAs(s, Next(s, e), if e.Dispatch? then [Fate(s, e)] else [],
      if e.ConnLost? then PendingOf(s.conns[e.idx]) else 0)
    ensures |Next(s, e).conns| == |s.conns|
  {
    if e.Dispatch? {
      FateIsNotLost(s, e);
      OneFate(Fate(s, e));
    }
  }

  lemma CountedTwice(s: Sender, mid: Sender, s': Sender, a: seq<Option<string>>, m: nat, b: seq<Option<string>>, n: nat)
    requires CountedAs(s, mid, a, m) && CountedAs(mid, s', b, n)
    ensures CountedAs(s, s', a + b, m + n)
  {
    CountAppend(Equals(None), a, b);
    forall r | r != LOST
      ensures Get(s'.failed, r) == Get(s.failed, r) + Count(Equals(Some(r)), a + b)
    {
      CountAppend(Equals(Some(r)), a, b);
    }
  }

  /**
    Over every run: each reason is booked for exactly the messages that met with it when they were
    dispatched, the others were attempted, and a lost connection books what was unanswered on it.
   */
  lemma {:induction false} ReasonsAreTheFates(s: Sender, es: seq<Event>)
    ensures CountedAs(s, Run(s, es), Fates(s, es), LostIn(s, es))
    decreases |es|
  {
    if es != [] {
      var e, rest := es[0], es[1..];
      ReasonsAreTheFates(Next(s, e), rest);
      if e.idx < |s.conns| {
        StepIsCounted(s, e);
        CountedTwice(s, Next(s, e), Run(s, es), if e.Dispatch? then [Fate(s, e)] else [],
                     if e.ConnLost? then PendingOf(s.conns[e.idx]) else 0, Fates(Next(s, e), rest),
                     LostIn(Next(s, e), rest));
      } else {
        assert [] + Fates(Next(s, e), rest) == Fates(Next(s, e), rest);
      }
    }
  }

  // ---- lost connections ----

  /** A socket that is lost: it is not connected, waits for nothing and receives nothing. */
  predicate IsDead(conn: Option<Client>) {
    conn.Some? && conn.value.closed && !conn.value.connected && conn.value.pending == {}
  }

  /** A loss makes a socket dead, for good. */
  lemma {:induction false} DeadStaysDead(s: Sender, es: seq<Event>, idx: nat)
    requires idx < |s.conns| && s.conns[idx].Some?
    ensures IsDead(Next(s, ConnLost(idx)).conns[idx])
    ensures IsDead(s.conns[idx]) ==> idx < |Run(s, es).conns| && IsDead(Run(s, es).conns[idx])
    decreases |es|
  {
    if es != [] && IsDead(s.conns[idx]) {
      StepLeavesDead(s, es[0], idx);
      DeadStaysDead(Next(s, es[0]), es[1..], idx);
    }
  }

  lemma StepLeavesDead(s: Sender, e: Event, idx: nat)
    requires idx < |s.conns| && IsDead(s.conns[idx])
    ensures idx < |Next(s, e).conns| && IsDead(Next(s, e).conns[idx])
  {
  }

  /** After the loss of its socket every message for a device is a failure without a connection. */
  lemma NothingIsSentAfterALoss(s: Sender, es: seq<Event>, idx: nat, e: Event)
    requires idx < |s.conns| && s.conns[idx].Some? && e.Dispatch? && e.idx == idx
    ensures var later := Run(Next(s, ConnLost(idx)), es);
      idx < |later.conns| && Fate(later, e) == Some("mqtt_no_conn")
  {
    var lost := Next(s, ConnLost(idx));
    DeadStaysDead(s, [], idx);
    DeadStaysDead(lost, es, idx);
  }

  /** The losses of sockets that were connected. */
  function DisconnectsIn(s: Sender, es: seq<Event>): nat
    decreases |es|
  {
    if es == [] then 0 else
    (if es[0].ConnLost? && es[0].idx < |s.conns| && s.conns[es[0].idx].Some? && s.conns[es[0].idx].value.connected
     then 1 else 0) + DisconnectsIn(Next(s, es[0]), es[1..])
  }

  lemma {:induction false} DisconnectsAreCounted(s: Sender, es: seq<Event>)
    ensures Run(s, es).disconnects == s.disconnects + DisconnectsIn(s, es)
    decreases |es|
  {
    if es != [] {
      DisconnectsAreCounted(Next(s, es[0]), es[1..]);
    }
  }
}
