/**
  The log of an open loop: which messages a sender has let go, to which device, with which timestamp and
  how late, and what it has summed up about them.
 */
module SendLog {
  import opened Schedule
  import opened Numbers

  /** A call of `dispatch`: message number, device, timestamp, and the elapsed time it was made at. */
  datatype Sent = Sent(k: nat, idx: nat, ts: int, at: real)

  /**
    What the loop cannot control: elapsed-time readings of the tick loop and of the final pass, the
    wall clock in milliseconds, and the in-flight count, each by number of the reading. `sched` is
    `sched_time`.
   */
  datatype World = World(
    tick: nat -> real,
    late: nat -> real,
    wall: nat -> int,
    inflight: nat -> nat,
    sched: nat -> real)

  /** `perf_counter` is monotonic, and the last tick is past the window. */
  ghost predicate Monotonic(w: World, last: nat, duration: real) {
    && w.tick(0) >= 0.0 && w.tick(last) >= duration
    && (forall i, j | i <= j :: w.tick(i) <= w.tick(j))
    && (forall i, j :: w.tick(i) <= w.late(j))
  }

  ghost predicate SchedTimes(s: Schedule, eps: real, w: World, nudged: nat -> real)
    requires Valid(s)
  {
    && (forall k: nat :: IsDeadline(s, k as real, w.sched(k)))
    && nudged(0) == 0.0 && (forall k: nat | k > 0 :: IsDeadline(s, k as real - eps, nudged(k)))
  }

  /** What a sender has recorded about the messages it let go. */
  datatype Ledger = Ledger(behind: nat, lagSum: real, maxLag: real, lastTs: map<nat, int>, log: seq<Sent>)

  const EMPTY := Ledger(0, 0.0, 0.0, map[], [])

  function Lag(w: World, m: Sent): real { m.at - w.sched(m.k) }

  function PositiveMs(lag: real): real { if lag > 0.0 then lag * 1000.0 else 0.0 }

  function Longer(a: real, b: real): real { if a > b then a else b }

  /** `_next_ts`: the wall clock, pushed forward when it is not ahead of the last value used. */
  function NextTs(lastTs: map<nat, int>, idx: nat, now: int): int {
    var last := if idx in lastTs then lastTs[idx] else 0;
    if now <= last then last + 1 else now
  }

  /** One more message. */
  function Record(l: Ledger, w: World, threshold: real, m: Sent): Ledger {
    Ledger(
      l.behind + (if Lag(w, m) > threshold then 1 else 0),
      l.lagSum + PositiveMs(Lag(w, m)),
      Longer(PositiveMs(Lag(w, m)), l.maxLag),
      l.lastTs[m.idx := m.ts],
      l.log + [m])
  }

  /** Messages 0, 1, 2, ... in order, round robin over the devices, none before its time. */
  ghost predicate InOrder(log: seq<Sent>, devices: nat, nudged: nat -> real)
    requires devices > 0
  {
    forall j: nat | j < |log| :: InTurn(log, j, devices, nudged)
  }

  ghost predicate InTurn(log: seq<Sent>, j: nat, devices: nat, nudged: nat -> real)
    requires j < |log| && devices > 0
  {
    log[j].k == j && log[j].idx == j % devices && log[j].at >= nudged(j)
  }

  ghost predicate TimestampsIncrease(log: seq<Sent>) {
    forall i: nat, j: nat | i < j < |log| :: Apart(log, i, j)
  }

  /** Two messages of one device have different timestamps, in their order. */
  ghost predicate Apart(log: seq<Sent>, i: nat, j: nat)
    requires i < j < |log|
  {
    log[i].idx == log[j].idx ==> log[i].ts < log[j].ts
  }

  /** `lastTs` holds the latest timestamp used for each device. */
  ghost predicate LastCovers(log: seq<Sent>, lastTs: map<nat, int>) {
    forall m | m in log :: m.idx in lastTs && m.ts <= lastTs[m.idx]
  }

  ghost predicate LastIsUsed(log: seq<Sent>, lastTs: map<nat, int>) {
    forall idx | idx in lastTs :: lastTs[idx] > 0 && UsedBefore(log, |log|, idx, lastTs[idx])
  }

  ghost predicate UsedBefore(log: seq<Sent>, n: nat, idx: nat, ts: int) {
    exists i | 0 <= i < n && i < |log| :: log[i].idx == idx && log[i].ts == ts
  }

  /**
    The wall clock as far as possible: a timestamp is positive and not before the clock, and where it is
    neither 1 nor the clock it is the next one after a timestamp of the same device.
   */
  ghost predicate IsStamped(log: seq<Sent>, w: World, j: nat)
    requires j < |log|
  {
    && log[j].ts >= 1 && log[j].ts >= w.wall(j)
    && (log[j].ts == 1 || log[j].ts == w.wall(j) || UsedBefore(log, j, log[j].idx, log[j].ts - 1))
  }

  ghost predicate Stamped(l: Ledger, w: World) {
    LastIsUsed(l.log, l.lastTs) && forall j | 0 <= j < |l.log| :: IsStamped(l.log, w, j)
  }

  ghost predicate LongestIsReached(l: Ledger, w: World) {
    l.maxLag == 0.0 || exists m :: m in l.log && PositiveMs(Lag(w, m)) == l.maxLag
  }

  function LateCount(log: seq<Sent>, w: World, threshold: real): nat {
    if log == [] then 0 else
    LateCount(log[..|log| - 1], w, threshold) + if Lag(w, log[|log| - 1]) > threshold then 1 else 0
  }

  function LagTotal(log: seq<Sent>, w: World): real {
    if log == [] then 0.0 else LagTotal(log[..|log| - 1], w) + PositiveMs(Lag(w, log[|log| - 1]))
  }

  ghost predicate Ordered(l: Ledger, devices: nat, nudged: nat -> real) {
    devices > 0 && InOrder(l.log, devices, nudged) && TimestampsIncrease(l.log) && LastCovers(l.log, l.lastTs)
  }

  /** `maxLag` is the longest lag of a message that was late at all, and 0 if there is none. */
  ghost predicate Summed(l: Ledger, w: World, threshold: real) {
    && l.behind == LateCount(l.log, w, threshold) && l.lagSum == LagTotal(l.log, w)
    && (forall m | m in l.log :: PositiveMs(Lag(w, m)) <= l.maxLag) && LongestIsReached(l, w)
  }

  /** The ledger of a correct open loop. */
  ghost predicate Kept(l: Ledger, w: World, threshold: real, devices: nat, nudged: nat -> real) {
    Ordered(l, devices, nudged) && Stamped(l, w) && Summed(l, w, threshold)
  }

  lemma RecordKeepsOrder(l: Ledger, w: World, threshold: real, devices: nat, nudged: nat -> real, now: int, at: real)
    requires Ordered(l, devices, nudged) && nudged(|l.log|) <= at
    ensures var k := |l.log|;
      var idx := k % devices;
      Ordered(Record(l, w, threshold, Sent(k, idx, NextTs(l.lastTs, idx, now), at)), devices, nudged)
  {
    var k := |l.log|;
    var m := Sent(k, k % devices, NextTs(l.lastTs, k % devices, now), at);
    var log := l.log + [m];
    forall j: nat | j < |log|
      ensures InTurn(log, j, devices, nudged)
    {
      assert j < k ==> InTurn(l.log, j, devices, nudged) && log[j] == l.log[j];
    }
    forall i: nat, j: nat | i < j < |log|
      ensures Apart(log, i, j)
    {
      if j < k {
        assert Apart(l.log, i, j);
      } else {
        assert l.log[i] in l.log;
      }
    }
  }

  lemma UsedInMore(log: seq<Sent>, m: Sent, n: nat, idx: nat, ts: int)
    requires UsedBefore(log, n, idx, ts)
    ensures UsedBefore(log + [m], n, idx, ts) && UsedBefore(log + [m], n + 1, idx, ts)
  {
    var i :| 0 <= i < n && i < |log| && log[i].idx == idx && log[i].ts == ts;
    assert (log + [m])[i] == log[i];
  }

  lemma LastStaysUsed(log: seq<Sent>, lastTs: map<nat, int>, m: Sent)
    requires LastIsUsed(log, lastTs) && m.ts > 0
    ensures LastIsUsed(log + [m], lastTs[m.idx := m.ts])
  {
    var more, now := log + [m], lastTs[m.idx := m.ts];
    forall idx | idx in now
      ensures now[idx] > 0 && UsedBefore(more, |more|, idx, now[idx])
    {
      if idx == m.idx {
        assert more[|log|] == m;
      } else {
        UsedInMore(log, m, |log|, idx, lastTs[idx]);
      }
    }
  }

  lemma RecordKeepsStamps(l: Ledger, w: World, threshold: real, idx: nat, at: real)
    requires Stamped(l, w)
    ensures var k := |l.log|;
      Stamped(Record(l, w, threshold, Sent(k, idx, NextTs(l.lastTs, idx, w.wall(k)), at)), w)
  {
    var k := |l.log|;
    var m := Sent(k, idx, NextTs(l.lastTs, idx, w.wall(k)), at);
    var log := l.log + [m];
    LastStaysUsed(l.log, l.lastTs, m);
    forall j | 0 <= j < |log|
      ensures IsStamped(log, w, j)
    {
      if j < k {
        assert IsStamped(l.log, w, j) && log[j] == l.log[j];
        if UsedBefore(l.log, j, l.log[j].idx, l.log[j].ts - 1) {
          UsedInMore(l.log, m, j, l.log[j].idx, l.log[j].ts - 1);
        }
      } else if idx in l.lastTs {
        UsedInMore(l.log, m, k, idx, l.lastTs[idx]);
      }
    }
  }

  lemma TotalsOfMore(log: seq<Sent>, m: Sent, w: World, threshold: real)
    ensures LateCount(log + [m], w, threshold) == LateCount(log, w, threshold) + if Lag(w, m) > threshold then 1 else 0
    ensures LagTotal(log + [m], w) == LagTotal(log, w) + PositiveMs(Lag(w, m))
  {
    assert (log + [m])[..|log|] == log;
  }

  lemma LongestOfMore(log: seq<Sent>, m: Sent, w: World, longest: real)
    requires forall n | n in log :: PositiveMs(Lag(w, n)) <= longest
    ensures forall n | n in log + [m] :: PositiveMs(Lag(w, n)) <= Longer(PositiveMs(Lag(w, m)), longest)
  {
  }

  lemma RecordKeepsSums(l: Ledger, w: World, threshold: real, m: Sent)
    requires Summed(l, w, threshold)
    ensures Summed(Record(l, w, threshold, m), w, threshold)
  {
    TotalsOfMore(l.log, m, w, threshold);
    LongestOfMore(l.log, m, w, l.maxLag);
    LongestStaysReached(l, w, m);
  }

  lemma LongestStaysReached(l: Ledger, w: World, m: Sent)
    requires LongestIsReached(l, w)
    ensures LongestIsReached(l.(log := l.log + [m], maxLag := Longer(PositiveMs(Lag(w, m)), l.maxLag)), w)
  {
    var log := l.log + [m];
    assert log[|l.log|] == m;
    if l.maxLag != 0.0 {
      var m' :| m' in l.log && PositiveMs(Lag(w, m')) == l.maxLag;
      assert m' in log;
    }
  }

  /** One more message in the ledger of a correct open loop. */
  lemma RecordIsKept(l: Ledger, w: World, threshold: real, devices: nat, nudged: nat -> real, at: real)
    requires Kept(l, w, threshold, devices, nudged) && nudged(|l.log|) <= at
    ensures var k := |l.log|;
      var idx := k % devices;
      Kept(Record(l, w, threshold, Sent(k, idx, NextTs(l.lastTs, idx, w.wall(k)), at)), w, threshold, devices, nudged)
  {
    var k := |l.log|;
    var idx := k % devices;
    RecordKeepsOrder(l, w, threshold, devices, nudged, w.wall(k), at);
    RecordKeepsStamps(l, w, threshold, idx, at);
    RecordKeepsSums(l, w, threshold, Sent(k, idx, NextTs(l.lastTs, idx, w.wall(k)), at));
  }

  /** Behind schedule are the messages that left more than the threshold after their deadline. */
  lemma {:induction false} LateMessages(log: seq<Sent>, w: World, threshold: real)
    ensures LateCount(log, w, threshold) == |set k | 0 <= k < |log| && log[k].at > w.sched(log[k].k) + threshold|
    decreases |log|
  {
    var late := set k | 0 <= k < |log| && log[k].at > w.sched(log[k].k) + threshold;
    if log != [] {
      var n := |log| - 1;
      var before := set k | 0 <= k < |log[..n]| && log[..n][k].at > w.sched(log[..n][k].k) + threshold;
      LateMessages(log[..n], w, threshold);
      assert late == before + if Lag(w, log[n]) > threshold then {n} else {};
    } else {
      assert late == {};
    }
  }

  /** How many of the first `m` messages go to device `i` of `n`. */
  function ShareOf(m: nat, n: nat, i: nat): nat
    requires i < n
  {
    if m == 0 then 0 else ShareOf(m - 1, n, i) + if (m - 1) % n == i then 1 else 0
  }

  /** Round robin is fair: device counts differ by at most one. */
  lemma {:induction false} FairShares(m: nat, n: nat, i: nat)
    requires i < n
    ensures ShareOf(m, n, i) == m / n + if i < m % n then 1 else 0
  {
    if m > 0 {
      FairShares(m - 1, n, i);
      NextQuotient(m - 1, n);
    }
  }

  /** How many of the messages went to a device. */
  function SentTo(log: seq<Sent>, i: nat): nat {
    if log == [] then 0 else SentTo(log[..|log| - 1], i) + if log[|log| - 1].idx == i then 1 else 0
  }

  lemma {:induction false} SentToIsShare(log: seq<Sent>, n: nat, i: nat)
    requires i < n && forall j | 0 <= j < |log| :: log[j].idx == j % n
    ensures SentTo(log, i) == ShareOf(|log|, n, i)
    decreases |log|
  {
    if log != [] {
      SentToIsShare(log[..|log| - 1], n, i);
    }
  }

  lemma OrderHasDevices(log: seq<Sent>, devices: nat, nudged: nat -> real)
    requires devices > 0 && InOrder(log, devices, nudged)
    ensures forall m | m in log :: m.idx < devices
  {
    forall m | m in log
      ensures m.idx < devices
    {
      var j :| 0 <= j < |log| && log[j] == m;
      assert InTurn(log, j, devices, nudged);
    }
  }

  /** So a log in order is fair to all devices. */
  lemma OrderIsFair(log: seq<Sent>, devices: nat, nudged: nat -> real)
    requires devices > 0 && InOrder(log, devices, nudged)
    ensures forall i, j | 0 <= i < devices && 0 <= j < devices :: SentTo(log, i) <= SentTo(log, j) + 1
  {
    forall j | 0 <= j < |log|
      ensures log[j].idx == j % devices
    {
      assert InTurn(log, j, devices, nudged);
    }
    SharesDifferByOne(log, devices);
  }

  lemma SharesDifferByOne(log: seq<Sent>, n: nat)
    requires n > 0 && forall j | 0 <= j < |log| :: log[j].idx == j % n
    ensures forall i, j | 0 <= i < n && 0 <= j < n :: SentTo(log, i) <= SentTo(log, j) + 1
  {
    forall i | 0 <= i < n
      ensures |log| / n <= SentTo(log, i) <= |log| / n + 1
    {
      SentToIsShare(log, n, i);
      FairShares(|log|, n, i);
    }
  }

  lemma NextQuotient(m: nat, n: nat)
    requires n > 0
    ensures if m % n == n - 1 then (m + 1) / n == m / n + 1 && (m + 1) % n == 0
            else (m + 1) / n == m / n && (m + 1) % n == m % n + 1
  {
    var q, r := m / n, m % n;
    assert m == q * n + r;
    if r == n - 1 {
      assert m + 1 == (q + 1) * n;
      DivUnique(m + 1, n, q + 1, 0);
    } else {
      DivUnique(m + 1, n, q, r + 1);
    }
  }
}
