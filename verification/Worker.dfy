/**
  One worker from schedule to report: the log of the open loop, the engine that its calls of `dispatch`
  drive, and the result in which every message of the window is in exactly one counter.
 */
module Worker {
  import opened Wrappers
  import opened MapSums
  import opened Schedule
  import C = MqttClient
  import opened OpenLoop
  import opened SendLog
  import opened Sharding
  import D = MqttSender
  import H = HttpPool

  /** What the open loop leaves behind. */
  datatype Loop = Loop(log: seq<Sent>, dueTotal: nat, blocked: nat, behind: nat)

  /** The engine of a worker, from after its set-up to before its drain. */
  datatype Engine =
    | Mqtt(qos: nat, conns: seq<Option<C.Client>>, mqtt: seq<D.Event>)
    | Http(size: nat, http: seq<H.Event<nat>>)

  /** The devices that `dispatch` was called for, in order; HTTP connections belong to no device. */
  function Called(es: seq<D.Event>): seq<nat> {
    if es == [] then [] else (if es[0].Dispatch? then [es[0].idx] else []) + Called(es[1..])
  }

  function Calls(evs: seq<H.Event<nat>>): nat {
    if evs == [] then 0 else (if evs[0].Dispatch? then 1 else 0) + Calls(evs[1..])
  }

  function Devices(log: seq<Sent>): seq<nat> { seq(|log|, j requires 0 <= j < |log| => log[j].idx) }

  /** The messages of the log are the calls of `dispatch`, whatever else happens in between. */
  ghost predicate Drives(log: seq<Sent>, e: Engine) {
    match e
    case Mqtt(_, conns, es) =>
      && Called(es) == Devices(log) && (forall m | m in log :: m.idx < |conns|)
      && forall c | c in conns :: D.PendingOf(c) == 0
    case Http(_, evs) => Calls(evs) == |log|
  }

  /** What the loop promises: a message of the window that did not leave was blocked by the cap. */
  predicate Closed(l: Loop) { |l.log| <= l.dueTotal && (|l.log| < l.dueTotal ==> l.blocked > 0) }

  function Missing(l: Loop): nat { if |l.log| < l.dueTotal then l.dueTotal - |l.log| else 0 }

  /** The counters of `result` that loop and engine decide; `rest` has the others. */
  ghost function Report(l: Loop, e: Engine, rest: Result): Result {
    var r := rest.(dueTotal := l.dueTotal, deficit := Missing(l), behind := l.behind);
    match e
    case Mqtt(qos, conns, es) =>
      var d := D.DrainStep(D.Run(D.Start(qos, conns), es));
      r.(dispatched := d.dispatched, blocked := l.blocked, attempted := d.attempted, accepted := d.accepted,
         failed := d.failed)
    case Http(size, evs) =>
      var d := H.DrainStep(H.Run(H.Connecting(size), evs));
      r.(dispatched := d.dispatched, blocked := l.blocked + d.blocked, attempted := d.attempted, accepted := d.accepted,
         failed := d.failed)
  }

  lemma MqttStep(s: D.Sender, e: D.Event)
    requires e.Dispatch? ==> e.idx < |s.conns|
    ensures D.Next(s, e).dispatched == s.dispatched + (if e.Dispatch? then 1 else 0)
    ensures |D.Next(s, e).conns| == |s.conns|
  {
  }

  lemma {:induction false} MqttDispatches(s: D.Sender, es: seq<D.Event>)
    requires forall i | i in Called(es) :: i < |s.conns|
    ensures D.Run(s, es).dispatched == s.dispatched + |Called(es)|
    decreases |es|
  {
    if es != [] {
      var e, rest := es[0], es[1..];
      var first := if e.Dispatch? then [e.idx] else [];
      assert Called(es) == first + Called(rest);
      assert e.Dispatch? ==> first[0] in first + Called(rest);
      MqttStep(s, e);
      forall i | i in Called(rest)
        ensures i < |s.conns|
      {
        assert i in first + Called(rest);
      }
      MqttDispatches(D.Next(s, e), rest);
    }
  }

  lemma HttpStep(e: H.Engine<nat>, ev: H.Event<nat>)
    requires H.Balanced(e)
    ensures H.Next(e, ev).dispatched == e.dispatched + if ev.Dispatch? then 1 else 0
  {
    if H.Enabled(e, ev) {
      match ev
      case Response(c, status) => H.ResultCounts(e.(pool := H.Respond(e.pool, c)), status);
      case Lost(c) => H.ResultCounts(e.(pool := H.LoseConn(e.pool, c)), -1);
      case Dispatch =>
      case Joined(_) =>
      case Checked =>
      case Registered(_) =>
      case Close =>
    }
  }

  lemma {:induction false} HttpDispatches(e: H.Engine<nat>, evs: seq<H.Event<nat>>)
    requires H.Balanced(e)
    ensures H.Run(e, evs).dispatched == e.dispatched + Calls(evs)
    decreases |evs|
  {
    if evs != [] {
      HttpStep(e, evs[0]);
      H.StepBalances(e, evs[0]);
      HttpDispatches(H.Next(e, evs[0]), evs[1..]);
    }
  }

  lemma MqttAccounts(l: Loop, e: Engine, rest: Result)
    requires Closed(l) && Drives(l.log, e) && e.Mqtt?
    ensures Accounts(Report(l, e, rest)) && Report(l, e, rest).dispatched == |l.log|
  {
    var s := D.Start(e.qos, e.conns);
    forall i | i in Called(e.mqtt)
      ensures i < |s.conns|
    {
      var j :| 0 <= j < |l.log| && Devices(l.log)[j] == i;
      assert l.log[j] in l.log;
    }
    MqttDispatches(s, e.mqtt);
    D.EveryMessageInOneBucket(e.qos, e.conns, e.mqtt);
  }

  lemma HttpAccounts(l: Loop, e: Engine, rest: Result)
    requires Closed(l) && Drives(l.log, e) && e.Http?
    ensures Accounts(Report(l, e, rest)) && Report(l, e, rest).dispatched == |l.log|
  {
    H.ConnectingIsBalanced<nat>(e.size);
    HttpDispatches(H.Connecting(e.size), e.http);
    H.EveryMessageInOneBucket(e.size, e.http);
  }

  /**
    Every message the worker schedules ends in exactly one counter of its result: it was not sent, which
    the cap explains, or it was accepted, or it failed for one reason.
   */
  lemma WorkerAccounts(l: Loop, e: Engine, rest: Result)
    requires Closed(l) && Drives(l.log, e)
    ensures Accounts(Report(l, e, rest)) && Report(l, e, rest).dispatched == |l.log|
  {
    match e
    case Mqtt(_, _, _) => MqttAccounts(l, e, rest);
    case Http(_, _) => HttpAccounts(l, e, rest);
  }

  /** The result of a worker that did not die. */
  ghost predicate IsReport(r: Result) { exists l, e, rest :: Closed(l) && Drives(l.log, e) && r == Report(l, e, rest) }

  /** And so over all workers: scheduled = accepted + failed + not sent. */
  lemma LoadTestAccounts(results: seq<Option<Result>>)
    requires forall r | r in results && r.Some? :: IsReport(r.value)
    ensures var agg := AddAll(Good(results));
      Accounts(agg) && agg.dueTotal == agg.accepted + Total(agg.failed) + agg.deficit
  {
    GoodAreReports(results);
    forall r | r in Good(results)
      ensures Accounts(r)
    {
      var l, e, rest :| Closed(l) && Drives(l.log, e) && r == Report(l, e, rest);
      WorkerAccounts(l, e, rest);
    }
    MergedAccounts(Good(results));
  }

  lemma {:induction false} GoodAreReports(results: seq<Option<Result>>)
    requires forall r | r in results && r.Some? :: IsReport(r.value)
    ensures forall r | r in Good(results) :: IsReport(r)
  {
    if results != [] {
      assert forall r | r in results[1..] :: r in results;
      assert results[0] in results;
      GoodAreReports(results[1..]);
    }
  }

  /** The loop of `run_schedule` leaves what the results above start from. */
  method Measure(sender: BaseSender, w: World, ghost last: nat, ghost nudged: nat -> real) returns (l: Loop)
    requires Valid(sender.schedule) && 0.0 <= sender.eps < 1.0 && sender.devices > 0
    requires Monotonic(w, last, sender.duration) && SchedTimes(sender.schedule, sender.eps, w, nudged)
    requires sender.dispatched == sender.blockedInflight == 0 && sender.View() == EMPTY
    modifies sender
    ensures Closed(l) && l.dueTotal == TotalDue(sender.schedule, sender.eps, sender.duration)
    ensures InOrder(l.log, sender.devices, nudged) && forall m | m in l.log :: m.idx < sender.devices
    ensures (forall r :: w.inflight(r) < sender.maxInflight) ==> l.blocked == 0 && |l.log| == l.dueTotal
  {
    ghost var ticks, turns, place := sender.RunSchedule(w, last, nudged);
    OrderHasDevices(sender.log, sender.devices, nudged);
    l := Loop(sender.log, sender.dueTotal, sender.blockedInflight, sender.behindSchedule);
  }
}
