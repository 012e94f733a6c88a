/**
  The in-flight readings of an open loop: each of them lets one message go or ends a tick.
 */
module Pacing {
  import opened SendLog

  /** What the loop does on a reading of the in-flight count; the final pass is the tick behind the last one. */
  datatype Turn = Left(k: nat, tick: nat) | Blocked(tick: nat)

  /** The readings, the cap, the number of ticks, and how many messages each tick asks for. */
  datatype Plan = Plan(w: World, cap: nat, ticks: nat, asked: nat -> int)

  /** The elapsed time that message k is sent at, if it is sent at this tick. */
  function Clock(p: Plan, k: nat, tick: nat): real { if tick < p.ticks then p.w.tick(tick) else p.w.late(k) }

  function Blocks(turns: seq<Turn>): nat {
    if turns == [] then 0 else Blocks(turns[..|turns| - 1]) + if turns[|turns| - 1].Blocked? then 1 else 0
  }

  /**
    Turn r belongs to reading r: a message leaves exactly if the reading is below the cap. `place` has the
    turn of each message; it leaves at a tick that asks for it. Ticks follow each other, and a block ends one.
   */
  ghost predicate Paced(turns: seq<Turn>, place: seq<nat>, log: seq<Sent>, p: Plan) {
    && |place| == |log| && |turns| == |log| + Blocks(turns)
    && (forall r | 0 <= r < |turns| :: ByReading(turns[r], r, place, p))
    && (forall k | 0 <= k < |log| :: place[k] < |turns| && AtItsPlace(turns, place, log, p, k))
    && (forall r: nat, s: nat | r < s < |turns| :: Follows(turns, r, s))
  }

  ghost predicate Follows(turns: seq<Turn>, r: nat, s: nat)
    requires r < s < |turns|
  {
    if turns[r].Blocked? then turns[r].tick < turns[s].tick else turns[r].tick <= turns[s].tick
  }

  ghost predicate ByReading(t: Turn, r: nat, place: seq<nat>, p: Plan) {
    if p.w.inflight(r) < p.cap then t.Left? && t.k < |place| && place[t.k] == r else t.Blocked?
  }

  ghost predicate AtItsPlace(turns: seq<Turn>, place: seq<nat>, log: seq<Sent>, p: Plan, k: nat)
    requires k < |log| == |place| && place[k] < |turns|
  {
    && turns[place[k]] == Left(k, turns[place[k]].tick)
    && k < p.asked(turns[place[k]].tick) && log[k].at == Clock(p, k, turns[place[k]].tick)
  }

  ghost predicate LeftBy(turns: seq<Turn>, place: seq<nat>, k: nat, tick: nat) {
    k < |place| && place[k] < |turns| && turns[place[k]].tick <= tick
  }

  ghost predicate BlockedAt(turns: seq<Turn>, tick: nat) {
    exists r | 0 <= r < |turns| :: turns[r] == Blocked(tick)
  }

  /** A tick is blocked exactly if a message it asks for has not left by its end. */
  ghost predicate Settled(turns: seq<Turn>, place: seq<nat>, p: Plan, tick: nat) {
    BlockedAt(turns, tick) <==> exists k: nat | k < p.asked(tick) :: !LeftBy(turns, place, k, tick)
  }

  /** All turns so far belong to ticks up to this one, and the ticks before it are settled. */
  ghost predicate InTick(turns: seq<Turn>, place: seq<nat>, log: seq<Sent>, p: Plan, tick: nat) {
    && Paced(turns, place, log, p) && tick <= p.ticks
    && (forall r | 0 <= r < |turns| :: turns[r].tick <= tick)
    && (forall i: nat | i < tick :: Settled(turns, place, p, i))
  }

  lemma BlocksNext(turns: seq<Turn>, t: Turn)
    ensures Blocks(turns + [t]) == Blocks(turns) + if t.Blocked? then 1 else 0
  {
    assert (turns + [t])[..|turns|] == turns;
  }

  lemma SettledStays(turns: seq<Turn>, place: seq<nat>, turns': seq<Turn>, place': seq<nat>, p: Plan, i: nat)
    requires Settled(turns, place, p, i) && turns <= turns' && place <= place'
    requires forall r | |turns| <= r < |turns'| :: turns'[r].tick > i
    requires forall k | |place| <= k < |place'| :: |turns| <= place'[k]
    requires forall k | 0 <= k < |place| :: place[k] < |turns|
    ensures Settled(turns', place', p, i)
  {
    forall k: nat
      ensures LeftBy(turns', place', k, i) <==> LeftBy(turns, place, k, i)
    {
    }
    if BlockedAt(turns, i) {
      var r :| 0 <= r < |turns| && turns[r] == Blocked(i);
      assert turns'[r] == Blocked(i);
    }
    if BlockedAt(turns', i) {
      var r :| 0 <= r < |turns'| && turns'[r] == Blocked(i);
      assert turns[r] == Blocked(i);
    }
  }

  /** One more turn leaves the ticks before it as they were. */
  lemma EarlierStaySettled(turns: seq<Turn>, place: seq<nat>, log: seq<Sent>, p: Plan, tick: nat, t: Turn,
                           place': seq<nat>)
    requires InTick(turns, place, log, p, tick) && t.tick == tick
    requires place <= place' && forall k | |place| <= k < |place'| :: |turns| <= place'[k]
    ensures forall i: nat | i < tick :: Settled(turns + [t], place', p, i)
  {
    forall i: nat | i < tick
      ensures Settled(turns + [t], place', p, i)
    {
      SettledStays(turns, place, turns + [t], place', p, i);
    }
  }

  /** The turns so far are of earlier ticks, or let a message go. */
  lemma NoneBlocked(turns: seq<Turn>, tick: nat)
    requires (forall r | 0 <= r < |turns| :: turns[r].tick <= tick) && !BlockedAt(turns, tick)
    ensures forall r | 0 <= r < |turns| :: turns[r].Blocked? ==> turns[r].tick < tick
  {
    forall r | 0 <= r < |turns| && turns[r].Blocked?
      ensures turns[r].tick < tick
    {
      assert turns[r] != Blocked(tick);
    }
  }

  lemma LeftIsPaced(turns: seq<Turn>, place: seq<nat>, log: seq<Sent>, p: Plan, tick: nat, m: Sent)
    requires Paced(turns, place, log, p)
    requires forall r | 0 <= r < |turns| :: turns[r].tick <= tick && (turns[r].Blocked? ==> turns[r].tick < tick)
    requires p.w.inflight(|turns|) < p.cap && |log| < p.asked(tick) && m.at == Clock(p, |log|, tick)
    ensures Paced(turns + [Left(|log|, tick)], place + [|turns|], log + [m], p)
  {
    var turns', place', log' := turns + [Left(|log|, tick)], place + [|turns|], log + [m];
    BlocksNext(turns, Left(|log|, tick));
    forall r | 0 <= r < |turns'|
      ensures ByReading(turns'[r], r, place', p)
    {
      assert r < |turns| ==> ByReading(turns[r], r, place, p);
    }
    forall k | 0 <= k < |log'|
      ensures place'[k] < |turns'| && AtItsPlace(turns', place', log', p, k)
    {
      if k < |log| {
        assert AtItsPlace(turns, place, log, p, k);
      }
    }
    forall r: nat, s: nat | r < s < |turns'|
      ensures Follows(turns', r, s)
    {
      assert s < |turns| ==> Follows(turns, r, s);
    }
  }

  /** A reading below the cap: the next message leaves. */
  lemma TurnLeft(turns: seq<Turn>, place: seq<nat>, log: seq<Sent>, p: Plan, tick: nat, m: Sent)
    requires InTick(turns, place, log, p, tick) && !BlockedAt(turns, tick)
    requires p.w.inflight(|turns|) < p.cap && |log| < p.asked(tick) && m.at == Clock(p, |log|, tick)
    ensures var turns' := turns + [Left(|log|, tick)];
      InTick(turns', place + [|turns|], log + [m], p, tick) && !BlockedAt(turns', tick)
  {
    NoneBlocked(turns, tick);
    LeftIsPaced(turns, place, log, p, tick, m);
    EarlierStaySettled(turns, place, log, p, tick, Left(|log|, tick), place + [|turns|]);
  }

  lemma BlockIsPaced(turns: seq<Turn>, place: seq<nat>, log: seq<Sent>, p: Plan, tick: nat)
    requires Paced(turns, place, log, p)
    requires forall r | 0 <= r < |turns| :: turns[r].tick <= tick && (turns[r].Blocked? ==> turns[r].tick < tick)
    requires p.w.inflight(|turns|) >= p.cap
    ensures Paced(turns + [Blocked(tick)], place, log, p) && Blocks(turns + [Blocked(tick)]) == Blocks(turns) + 1
  {
    var turns' := turns + [Blocked(tick)];
    BlocksNext(turns, Blocked(tick));
    forall r | 0 <= r < |turns'|
      ensures ByReading(turns'[r], r, place, p)
    {
      assert r < |turns| ==> ByReading(turns[r], r, place, p);
    }
    forall k | 0 <= k < |log|
      ensures place[k] < |turns'| && AtItsPlace(turns', place, log, p, k)
    {
      assert AtItsPlace(turns, place, log, p, k);
    }
    forall r: nat, s: nat | r < s < |turns'|
      ensures Follows(turns', r, s)
    {
      assert s < |turns| ==> Follows(turns, r, s);
    }
  }

  /** A reading at or above the cap ends the tick, and a message it asked for stays. */
  lemma TurnBlocked(turns: seq<Turn>, place: seq<nat>, log: seq<Sent>, p: Plan, tick: nat)
    requires InTick(turns, place, log, p, tick) && !BlockedAt(turns, tick)
    requires p.w.inflight(|turns|) >= p.cap && |log| < p.asked(tick)
    ensures var turns' := turns + [Blocked(tick)];
      InTick(turns', place, log, p, tick) && Settled(turns', place, p, tick) && Blocks(turns') == Blocks(turns) + 1
  {
    var turns' := turns + [Blocked(tick)];
    NoneBlocked(turns, tick);
    BlockIsPaced(turns, place, log, p, tick);
    EarlierStaySettled(turns, place, log, p, tick, Blocked(tick), place);
    assert turns'[|turns|] == Blocked(tick) && !LeftBy(turns', place, |log|, tick);
  }

  /** A tick that sends all it asks for. */
  lemma TickDone(turns: seq<Turn>, place: seq<nat>, log: seq<Sent>, p: Plan, tick: nat)
    requires InTick(turns, place, log, p, tick) && !BlockedAt(turns, tick) && |log| >= p.asked(tick)
    ensures Settled(turns, place, p, tick)
  {
    forall k: nat | k < p.asked(tick)
      ensures LeftBy(turns, place, k, tick)
    {
      assert AtItsPlace(turns, place, log, p, k);
    }
  }

  /** The next tick, or the final pass, begins when a tick is settled. */
  lemma NextTick(turns: seq<Turn>, place: seq<nat>, log: seq<Sent>, p: Plan, tick: nat)
    requires InTick(turns, place, log, p, tick) && Settled(turns, place, p, tick) && tick < p.ticks
    ensures InTick(turns, place, log, p, tick + 1) && !BlockedAt(turns, tick + 1)
  {
  }

  lemma NoTurnsYet(p: Plan)
    ensures InTick([], [], [], p, 0) && !BlockedAt([], 0) && Blocks([]) == 0
  {
  }

  /** All ticks and the final pass. */
  ghost predicate Finished(turns: seq<Turn>, place: seq<nat>, log: seq<Sent>, p: Plan) {
    InTick(turns, place, log, p, p.ticks) && Settled(turns, place, p, p.ticks)
  }

  lemma {:induction false} BlockIsCounted(turns: seq<Turn>, r: nat)
    requires r < |turns| && turns[r].Blocked?
    ensures Blocks(turns) > 0
    decreases |turns|
  {
    if r < |turns| - 1 {
      BlockIsCounted(turns[..|turns| - 1], r);
    }
  }

  /** Only a block keeps a message from leaving. */
  lemma MissingMeansBlocked(turns: seq<Turn>, place: seq<nat>, log: seq<Sent>, p: Plan)
    requires Finished(turns, place, log, p)
    ensures |log| < p.asked(p.ticks) ==> Blocks(turns) > 0
  {
    assert !LeftBy(turns, place, |log|, p.ticks);
    if BlockedAt(turns, p.ticks) {
      var r :| 0 <= r < |turns| && turns[r] == Blocked(p.ticks);
      BlockIsCounted(turns, r);
    }
  }

  /** The message leaves at the first tick that asks for it. */
  ghost predicate AtFirstAsked(p: Plan, m: Sent, k: nat) {
    exists i: nat | i <= p.ticks && m.at == Clock(p, k, i) ::
      k < p.asked(i) && forall j: nat | j < i :: p.asked(j) <= k
  }

  lemma {:induction false} AllOrNone(turns: seq<Turn>)
    ensures (forall r | 0 <= r < |turns| :: turns[r].Left?) ==> Blocks(turns) == 0
    ensures (forall r | 0 <= r < |turns| :: turns[r].Blocked?) ==> Blocks(turns) == |turns|
    decreases |turns|
  {
    if turns != [] {
      AllOrNone(turns[..|turns| - 1]);
    }
  }

  /** Every reading below the cap: nothing is blocked, and each message leaves at the first tick that asks for it. */
  lemma RoomForAll(turns: seq<Turn>, place: seq<nat>, log: seq<Sent>, p: Plan)
    requires Finished(turns, place, log, p) && forall r :: p.w.inflight(r) < p.cap
    ensures Blocks(turns) == 0 && |log| >= p.asked(p.ticks)
    ensures forall k | 0 <= k < |log| :: AtFirstAsked(p, log[k], k)
  {
    assert forall r | 0 <= r < |turns| :: ByReading(turns[r], r, place, p);
    AllOrNone(turns);
    forall i: nat, k: nat | i <= p.ticks && k < p.asked(i)
      ensures LeftBy(turns, place, k, i)
    {
      assert Settled(turns, place, p, i);
    }
    assert !LeftBy(turns, place, |log|, p.ticks);
    forall k | 0 <= k < |log|
      ensures AtFirstAsked(p, log[k], k)
    {
      assert AtItsPlace(turns, place, log, p, k);
      var i := turns[place[k]].tick;
      forall j: nat | j < i
        ensures p.asked(j) <= k
      {
        assert !LeftBy(turns, place, k, j);
      }
    }
  }

  /** With every reading at or above the cap nothing leaves, and every tick that asks for something is blocked, once. */
  lemma NoRoomAtAll(turns: seq<Turn>, place: seq<nat>, log: seq<Sent>, p: Plan)
    requires Finished(turns, place, log, p) && forall r :: p.w.inflight(r) >= p.cap
    requires forall i: nat | i <= p.ticks :: p.asked(i) > 0
    ensures log == [] && Blocks(turns) == p.ticks + 1
  {
    assert forall r | 0 <= r < |turns| :: ByReading(turns[r], r, place, p);
    AllOrNone(turns);
    forall i: nat | i <= p.ticks
      ensures BlockedAt(turns, i)
    {
      assert Settled(turns, place, p, i) && !LeftBy(turns, place, 0, i);
    }
    OneForEach(turns, p.ticks);
  }

  ghost predicate OnlyBlocks(turns: seq<Turn>) {
    && (forall r | 0 <= r < |turns| :: turns[r].Blocked?)
    && forall r: nat, s: nat | r < s < |turns| :: Follows(turns, r, s)
  }

  lemma TicksIncrease(turns: seq<Turn>, r: nat, s: nat)
    requires OnlyBlocks(turns) && r < |turns| && s < |turns|
    ensures r < s ==> turns[r].tick < turns[s].tick
  {
    if r < s {
      assert Follows(turns, r, s);
    }
  }

  lemma OneForEach(turns: seq<Turn>, n: nat)
    requires OnlyBlocks(turns) && forall r | 0 <= r < |turns| :: turns[r].tick <= n
    requires forall i: nat | i <= n :: BlockedAt(turns, i)
    ensures |turns| == n + 1
  {
    TicksInOrder(turns, n, n);
    TicksIncrease(turns, n, |turns| - 1);
  }

  lemma {:induction false} TicksInOrder(turns: seq<Turn>, n: nat, i: nat)
    requires OnlyBlocks(turns) && i <= n && forall i: nat | i <= n :: BlockedAt(turns, i)
    ensures i < |turns| && turns[i].tick == i
  {
    assert BlockedAt(turns, i);
    var r :| 0 <= r < |turns| && turns[r] == Blocked(i);
    if i > 0 {
      TicksInOrder(turns, n, i - 1);
      TicksIncrease(turns, r, i - 1);
      TicksIncrease(turns, i - 1, i);
    }
    TicksIncrease(turns, i, r);
  }
}
