/**
  The open loop of a sender: messages leave when the schedule says so, for any clock readings and
  whatever the connections do. What happens inside `dispatch` is another module's business; here it
  is an entry in a log.
 */
module OpenLoop {
  import opened Schedule
  import opened Numbers
  import opened SendLog
  import opened Pacing

  /** A message counted as due may leave: its time has come. */
  lemma DueMeansReady(s: Schedule, eps: real, w: World, nudged: nat -> real, k: nat, t: real)
    requires Valid(s) && 0.0 <= eps < 1.0 && t >= 0.0
    requires SchedTimes(s, eps, w, nudged) && k < Due(s, eps, t)
    ensures nudged(k) <= t
  {
    DueIffNudgedDeadline(s, eps, k, nudged(k), t);
  }

  /** How many messages tick i asks for; the final pass asks for all of the window. */
  function Asked(s: Schedule, eps: real, duration: real, w: World, ticks: nat, i: nat): int {
    var total := TotalDue(s, eps, duration);
    if i < ticks then Min(Due(s, eps, w.tick(i)), total) else total
  }

  function PlanOf(s: Schedule, eps: real, duration: real, cap: nat, w: World, ticks: nat): Plan {
    Plan(w, cap, ticks, (i: nat) => Asked(s, eps, duration, w, ticks, i))
  }

  /** The ticks inside the window are the first ones. */
  ghost predicate IsTickCount(w: World, duration: real, ticks: nat) {
    w.tick(ticks) >= duration && forall i: nat | i < ticks :: w.tick(i) < duration
  }

  lemma {:induction false} SomeTickCount(w: World, last: nat, duration: real) returns (ticks: nat)
    requires Monotonic(w, last, duration)
    ensures IsTickCount(w, duration, ticks)
  {
    ticks := 0;
    while w.tick(ticks) < duration
      invariant ticks <= last && forall i: nat | i < ticks :: w.tick(i) < duration
      decreases last - ticks
    {
      ticks := ticks + 1;
    }
  }

  /** Inside the window every tick asks for something, if the window has any messages. */
  lemma EachTickAsks(s: Schedule, eps: real, duration: real, cap: nat, w: World, last: nat, ticks: nat, i: nat)
    requires Valid(s) && 0.0 <= eps < 1.0 && Monotonic(w, last, duration) && TotalDue(s, eps, duration) > 0
    ensures PlanOf(s, eps, duration, cap, w, ticks).asked(i) > 0
  {
    assert w.tick(0) <= w.tick(i);
    DueIffNudgedDeadline(s, eps, 0, 0.0, w.tick(i));
  }

  /** In the middle of a tick: a correct ledger, and every reading so far accounted for. */
  ghost predicate Going(l: Ledger, blocked: nat, turns: seq<Turn>, place: seq<nat>, threshold: real, devices: nat,
                        nudged: nat -> real, p: Plan, tick: nat) {
    && Kept(l, p.w, threshold, devices, nudged)
    && InTick(turns, place, l.log, p, tick) && blocked == Blocks(turns)
  }

  lemma NothingSentYet(threshold: real, devices: nat, nudged: nat -> real, p: Plan)
    requires devices > 0
    ensures Going(EMPTY, 0, [], [], threshold, devices, nudged, p, 0) && !BlockedAt([], 0)
  {
    NoTurnsYet(p);
  }

  /** A message whose time has come, and a reading below the cap. */
  lemma MessageLeaves(l: Ledger, blocked: nat, turns: seq<Turn>, place: seq<nat>, threshold: real, devices: nat,
                      nudged: nat -> real, p: Plan, tick: nat, at: real, m: Sent, l': Ledger)
    requires Going(l, blocked, turns, place, threshold, devices, nudged, p, tick) && !BlockedAt(turns, tick)
    requires p.w.inflight(|turns|) < p.cap && |l.log| < p.asked(tick)
    requires nudged(|l.log|) <= at == Clock(p, |l.log|, tick)
    requires var idx := |l.log| % devices; m == Sent(|l.log|, idx, NextTs(l.lastTs, idx, p.w.wall(|l.log|)), at)
    requires l' == Record(l, p.w, threshold, m)
    ensures var turns' := turns + [Left(m.k, tick)];
      Going(l', blocked, turns', place + [|turns|], threshold, devices, nudged, p, tick) && !BlockedAt(turns', tick)
  {
    RecordIsKept(l, p.w, threshold, devices, nudged, at);
    TurnLeft(turns, place, l.log, p, tick, m);
    BlocksNext(turns, Left(m.k, tick));
  }

  /**
    What the in-flight readings come to. All below the cap: nothing is blocked, all of the window leaves, and
    each message at the first tick that asks for it. None below it: nothing leaves, and every tick is blocked.
   */
  ghost predicate ByTheCap(p: Plan, log: seq<Sent>, blocked: nat, total: int) {
    && ((forall r :: p.w.inflight(r) < p.cap) ==>
          blocked == 0 && |log| == total && forall k | 0 <= k < |log| :: AtFirstAsked(p, log[k], k))
    && ((forall r :: p.w.inflight(r) >= p.cap) && total > 0 ==> log == [] && blocked == p.ticks + 1)
  }

  lemma CapDecides(s: Schedule, eps: real, duration: real, cap: nat, w: World, last: nat, ticks: nat,
                   turns: seq<Turn>, place: seq<nat>, log: seq<Sent>)
    requires Valid(s) && 0.0 <= eps < 1.0 && Monotonic(w, last, duration)
    requires Finished(turns, place, log, PlanOf(s, eps, duration, cap, w, ticks))
    requires |log| <= TotalDue(s, eps, duration)
    ensures ByTheCap(PlanOf(s, eps, duration, cap, w, ticks), log, Blocks(turns), TotalDue(s, eps, duration))
  {
    var p := PlanOf(s, eps, duration, cap, w, ticks);
    if forall r :: w.inflight(r) < cap {
      RoomForAll(turns, place, log, p);
    }
    if (forall r :: w.inflight(r) >= cap) && TotalDue(s, eps, duration) > 0 {
      forall i: nat | i <= p.ticks
        ensures p.asked(i) > 0
      {
        EachTickAsks(s, eps, duration, cap, w, last, ticks, i);
      }
      NoRoomAtAll(turns, place, log, p);
    }
  }

  class BaseSender {
    const schedule: Schedule
    const eps: real
    const duration: real
    const threshold: real
    const maxInflight: nat
    const devices: nat

    var dispatched: nat
    var blockedInflight: nat
    var behindSchedule: nat
    var lagSum: real
    var maxLag: real
    var dueTotal: int
    var lastTs: map<nat, int>
    var log: seq<Sent>

    constructor (schedule: Schedule, eps: real, duration: real, threshold: real, maxInflight: nat, devices: nat)
      ensures this.schedule == schedule && this.eps == eps && this.duration == duration
      ensures this.threshold == threshold && this.maxInflight == maxInflight && this.devices == devices
      ensures dispatched == blockedInflight == 0 && View() == EMPTY
    {
      this.schedule, this.eps, this.duration, this.threshold := schedule, eps, duration, threshold;
      this.maxInflight, this.devices := maxInflight, devices;
      dispatched, blockedInflight, behindSchedule, lagSum, maxLag, dueTotal := 0, 0, 0, 0.0, 0.0, 0;
      lastTs, log := map[], [];
    }

    function View(): Ledger
      reads this
    {
      Ledger(behindSchedule, lagSum, maxLag, lastTs, log)
    }

    /** One message of either loop: lag accounting, timestamp, `dispatch`, and the count of it. */
    method SendOne(w: World, k: nat, at: real)
      requires devices > 0
      modifies this`dispatched, this`behindSchedule, this`lagSum, this`maxLag, this`lastTs, this`log
      ensures var idx := k % devices;
        View() == Record(old(View()), w, threshold, Sent(k, idx, NextTs(old(lastTs), idx, w.wall(k)), at))
      ensures dispatched == old(dispatched) + 1
    {
      var lag := at - w.sched(k);
      if lag > threshold {
        behindSchedule := behindSchedule + 1;
      }
      if lag > 0.0 {
        lagSum := lagSum + lag * 1000.0;
      }
      maxLag := Longer(PositiveMs(lag), maxLag);
      var idx := k % devices;
      var ts := NextTs(lastTs, idx, w.wall(k));
      lastTs := lastTs[idx := ts];
      log := log + [Sent(k, idx, ts, at)];
      dispatched := dispatched + 1;
    }

    ghost predicate Running(turns: seq<Turn>, place: seq<nat>, nudged: nat -> real, p: Plan, tick: nat)
      reads this
    {
      Going(View(), blockedInflight, turns, place, threshold, devices, nudged, p, tick) && dispatched == |log|
    }

    /** The same, for a message whose time has come and a reading below the cap. */
    method SendReady(w: World, k: nat, at: real, ghost nudged: nat -> real, ghost p: Plan, ghost tick: nat,
                     ghost turns: seq<Turn>, ghost place: seq<nat>)
      returns (ghost turns': seq<Turn>, ghost place': seq<nat>)
      requires p.w == w && Running(turns, place, nudged, p, tick) && !BlockedAt(turns, tick)
      requires k == dispatched && nudged(k) <= at == Clock(p, k, tick)
      requires w.inflight(|turns|) < p.cap && k < p.asked(tick)
      modifies this`dispatched, this`behindSchedule, this`lagSum, this`maxLag, this`lastTs, this`log
      ensures Running(turns', place', nudged, p, tick) && !BlockedAt(turns', tick)
      ensures k + 1 == dispatched && |turns'| == |turns| + 1
    {
      ghost var l, idx := View(), k % devices;
      ghost var m := Sent(k, idx, NextTs(lastTs, idx, w.wall(k)), at);
      ghost var l' := Record(l, w, threshold, m);
      MessageLeaves(l, blockedInflight, turns, place, threshold, devices, nudged, p, tick, at, m, l');
      SendOne(w, k, at);
      turns', place' := turns + [Left(k, tick)], place + [|turns|];
    }

    /** A reading at or above the cap. */
    method Block(ghost nudged: nat -> real, ghost p: Plan, ghost tick: nat, ghost turns: seq<Turn>,
                 ghost place: seq<nat>)
      returns (ghost turns': seq<Turn>)
      requires Running(turns, place, nudged, p, tick) && !BlockedAt(turns, tick)
      requires p.w.inflight(|turns|) >= p.cap && dispatched < p.asked(tick)
      modifies this`blockedInflight
      ensures Running(turns', place, nudged, p, tick) && Settled(turns', place, p, tick)
      ensures |turns'| == |turns| + 1
    {
      TurnBlocked(turns, place, log, p, tick);
      turns' := turns + [Blocked(tick)];
      blockedInflight := blockedInflight + 1;
    }

    /**
      `run_schedule`: the tick loop, then one final pass. Every message of the window leaves at most
      once, in order and not before its time. Each reading of the in-flight count lets one message go or
      ends a tick. What is missing at the end was blocked by the cap.
     */
    method RunSchedule(w: World, ghost last: nat, ghost nudged: nat -> real)
      returns (ghost ticks: nat, ghost turns: seq<Turn>, ghost place: seq<nat>)
      requires Valid(schedule) && 0.0 <= eps < 1.0 && devices > 0
      requires Monotonic(w, last, duration) && SchedTimes(schedule, eps, w, nudged)
      requires dispatched == blockedInflight == 0 && View() == EMPTY
      modifies this
      ensures Kept(View(), w, threshold, devices, nudged) && dispatched == |log|
      ensures dueTotal == TotalDue(schedule, eps, duration) && dispatched <= dueTotal
      ensures dispatched < dueTotal ==> blockedInflight > 0
      ensures forall i, j | 0 <= i < devices && 0 <= j < devices :: SentTo(log, i) <= SentTo(log, j) + 1
      ensures IsTickCount(w, duration, ticks) && blockedInflight == Blocks(turns)
      ensures Finished(turns, place, log, PlanOf(schedule, eps, duration, maxInflight, w, ticks))
      ensures ByTheCap(PlanOf(schedule, eps, duration, maxInflight, w, ticks), log, blockedInflight, dueTotal)
    {
      ticks := SomeTickCount(w, last, duration);
      ghost var p := PlanOf(schedule, eps, duration, maxInflight, w, ticks);
      var i, q := 0, 0;
      turns, place := [], [];
      DueIsMonotone(schedule, eps, duration, duration);
      NothingSentYet(threshold, devices, nudged, p);
      while w.tick(i) < duration
        invariant Running(turns, place, nudged, p, i) && !BlockedAt(turns, i) && q == |turns|
        invariant i <= ticks && dispatched <= TotalDue(schedule, eps, duration)
        decreases ticks - i
      {
        var el := w.tick(i);
        assert w.tick(0) <= el;
        var due := Min(Due(schedule, eps, el), TotalDue(schedule, eps, duration));
        q, turns, place := SendDue(w, el, due, q, nudged, p, i, turns, place);
        NextTick(turns, place, log, p, i);
        i := i + 1;
      }
      dueTotal := TotalDue(schedule, eps, duration);
      assert forall j :: w.tick(i) <= w.late(j);
      q, turns, place := FinalPass(w, q, nudged, p, turns, place);
      MissingMeansBlocked(turns, place, log, p);
      OrderIsFair(log, devices, nudged);
      CapDecides(schedule, eps, duration, maxInflight, w, last, ticks, turns, place, log);
    }

    /** The inner loop of one tick. */
    method SendDue(w: World, el: real, due: int, q0: nat, ghost nudged: nat -> real, ghost p: Plan, ghost i: nat,
                   ghost turns0: seq<Turn>, ghost place0: seq<nat>)
      returns (q: nat, ghost turns: seq<Turn>, ghost place: seq<nat>)
      requires Valid(schedule) && 0.0 <= eps < 1.0 && 0.0 <= el && due <= Due(schedule, eps, el)
      requires SchedTimes(schedule, eps, w, nudged)
      requires p.w == w && p.cap == maxInflight && i < p.ticks && el == w.tick(i) && due == p.asked(i)
      requires Running(turns0, place0, nudged, p, i) && !BlockedAt(turns0, i) && q0 == |turns0|
      modifies this
      ensures Running(turns, place, nudged, p, i) && Settled(turns, place, p, i) && q == |turns|
      ensures dispatched <= due || dispatched == old(dispatched)
      ensures dueTotal == old(dueTotal)
    {
      var k := dispatched;
      q, turns, place := q0, turns0, place0;
      while k < due
        invariant Running(turns, place, nudged, p, i) && !BlockedAt(turns, i) && q == |turns| && k == dispatched
        invariant (k <= due || k == old(dispatched)) && dueTotal == old(dueTotal)
        decreases due - k
      {
        var inflight := w.inflight(q);
        q := q + 1;
        if inflight >= maxInflight {
          turns := Block(nudged, p, i, turns, place);
          return;
        }
        DueMeansReady(schedule, eps, w, nudged, k, el);
        turns, place := SendReady(w, k, el, nudged, p, i, turns, place);
        k := k + 1;
      }
      TickDone(turns, place, log, p, i);
    }

    /** The catch-up behind the tick loop; its clock is read for every message. */
    method FinalPass(w: World, q0: nat, ghost nudged: nat -> real, ghost p: Plan, ghost turns0: seq<Turn>,
                     ghost place0: seq<nat>)
      returns (q: nat, ghost turns: seq<Turn>, ghost place: seq<nat>)
      requires Valid(schedule) && 0.0 <= eps < 1.0 && dueTotal == TotalDue(schedule, eps, duration)
      requires SchedTimes(schedule, eps, w, nudged) && forall j :: duration <= w.late(j)
      requires p.w == w && p.cap == maxInflight && p.asked(p.ticks) == dueTotal && dispatched <= dueTotal
      requires Running(turns0, place0, nudged, p, p.ticks) && !BlockedAt(turns0, p.ticks) && q0 == |turns0|
      modifies this
      ensures Running(turns, place, nudged, p, p.ticks) && Settled(turns, place, p, p.ticks) && q == |turns|
      ensures dispatched <= dueTotal == old(dueTotal)
    {
      var k := dispatched;
      q, turns, place := q0, turns0, place0;
      while k < dueTotal
        invariant Running(turns, place, nudged, p, p.ticks) && !BlockedAt(turns, p.ticks)
        invariant q == |turns| && k == dispatched <= dueTotal == old(dueTotal)
        decreases dueTotal - k
      {
        var inflight := w.inflight(q);
        q := q + 1;
        if inflight >= maxInflight {
          turns := Block(nudged, p, p.ticks, turns, place);
          return;
        }
        DueMeansReady(schedule, eps, w, nudged, k, duration);
        turns, place := SendReady(w, k, w.late(k), nudged, p, p.ticks, turns, place);
        k := k + 1;
      }
      TickDone(turns, place, log, p, p.ticks);
    }

    /** The deficit that `result` reports. */
    method Deficit() returns (d: int)
      ensures d >= 0 && (dispatched <= dueTotal ==> dispatched + d == dueTotal)
    {
      d := if dueTotal - dispatched > 0 then dueTotal - dispatched else 0;
    }
  }
}
