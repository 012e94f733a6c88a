/**
  One run over several worker processes: the devices are dealt out round robin, each worker gets its
  share of the rate, and the results are added up.
 */
module Sharding {
  import opened Wrappers
  import opened Schedule
  import opened MapSums
  import opened Sums

  /** `xs[start::step]`. */
  function Slice<T>(xs: seq<T>, start: nat, step: nat): seq<T>
    requires step > 0
    decreases if start < |xs| then |xs| - start else 0
  {
    if start >= |xs| then [] else [xs[start]] + Slice(xs, start + step, step)
  }

  /** Element j of a slice is the one `step` times j behind the start, as long as there is one. */
  lemma {:induction false} SliceAt<T>(xs: seq<T>, start: nat, step: nat, j: nat)
    requires step > 0
    ensures j < |Slice(xs, start, step)| <==> start + j * step < |xs|
    ensures start + j * step < |xs| ==> Slice(xs, start, step)[j] == xs[start + j * step]
    decreases j
  {
    if start < |xs| && j > 0 {
      SliceAt(xs, start + step, step, j - 1);
      assert start + step + (j - 1) * step == start + j * step;
    } else if j > 0 {
      assert j * step >= 0;
    }
  }

  /** The weight, by any measure, of `count` consecutive shards, the first of which starts at `k`. */
  function Dealt<T>(f: T -> nat, xs: seq<T>, k: nat, step: nat, count: nat): nat
    requires step > 0
  {
    if count == 0 then 0 else Dealt(f, xs, k, step, count - 1) + Sum(f, Slice(xs, k + count - 1, step))
  }

  lemma {:induction false} DealtFromNext<T>(f: T -> nat, xs: seq<T>, k: nat, step: nat, count: nat)
    requires step > 0
    ensures Dealt(f, xs, k, step, count + 1) == Sum(f, Slice(xs, k, step)) + Dealt(f, xs, k + 1, step, count)
  {
    if count > 0 {
      var last := Sum(f, Slice(xs, k + count, step));
      DealtFromNext(f, xs, k, step, count - 1);
      assert Dealt(f, xs, k, step, count + 1) == Dealt(f, xs, k, step, count) + last;
      assert Dealt(f, xs, k + 1, step, count) == Dealt(f, xs, k + 1, step, count - 1) + last;
    }
  }

  lemma {:induction false} NothingBehindTheEnd<T>(f: T -> nat, xs: seq<T>, k: nat, step: nat, count: nat)
    requires step > 0 && k >= |xs|
    ensures Dealt(f, xs, k, step, count) == 0
  {
    if count > 0 {
      NothingBehindTheEnd(f, xs, k, step, count - 1);
    }
  }

  /** A full round of shards from `k` on deals out every device from `k` on exactly once. */
  lemma {:induction false} FullRound<T>(f: T -> nat, xs: seq<T>, k: nat, step: nat)
    requires step > 0 && k <= |xs|
    ensures Dealt(f, xs, k, step, step) == Sum(f, xs[k..])
    decreases |xs| - k
  {
    if k == |xs| {
      NothingBehindTheEnd(f, xs, k, step, step);
    } else {
      FullRound(f, xs, k + 1, step);
      DealtFromNext(f, xs, k, step, step - 1);
      assert Slice(xs, k, step)[1..] == Slice(xs, k + step, step);
      assert xs[k..][1..] == xs[k + 1..];
    }
  }

  /** The shards of a run; empty ones are dropped. */
  function Shards<T>(xs: seq<T>, workers: nat, i: nat): seq<seq<T>>
    requires i <= workers
    decreases workers - i
  {
    if i == workers then [] else
    var s := Slice(xs, i, workers);
    if s == [] then Shards(xs, workers, i + 1) else [s] + Shards(xs, workers, i + 1)
  }

  function Together<T>(f: T -> nat, shards: seq<seq<T>>): nat {
    if shards == [] then 0 else Sum(f, shards[0]) + Together(f, shards[1..])
  }

  lemma {:induction false} ShardsDeal<T>(f: T -> nat, xs: seq<T>, workers: nat, i: nat)
    requires i <= workers && workers > 0
    ensures Together(f, Shards(xs, workers, i)) == Dealt(f, xs, i, workers, workers - i)
    ensures forall s | s in Shards(xs, workers, i) :: s != []
    decreases workers - i
  {
    if i < workers {
      ShardsDeal(f, xs, workers, i + 1);
      DealtFromNext(f, xs, i, workers, workers - i - 1);
    }
  }

  /**
    The shards partition the devices: by any measure (how often one device occurs, how many there
    are) they weigh together exactly what the list weighs, and none is empty.
   */
  lemma ShardsPartition<T>(f: T -> nat, xs: seq<T>, workers: nat)
    requires workers > 0
    ensures Together(f, Shards(xs, workers, 0)) == Sum(f, xs)
    ensures forall s | s in Shards(xs, workers, 0) :: s != []
  {
    ShardsDeal(f, xs, workers, 0);
    FullRound(f, xs, 0, workers);
    assert xs[0..] == xs;
  }

  function Lengths<T>(shards: seq<seq<T>>): seq<nat> {
    if shards == [] then [] else [|shards[0]|] + Lengths(shards[1..])
  }

  lemma {:induction false} LengthsWeigh<T>(shards: seq<seq<T>>)
    ensures SumOf(Lengths(shards)) == Together((x: T) => 1, shards) && |Lengths(shards)| == |shards|
  {
    if shards != [] {
      OnesCount(shards[0]);
      LengthsWeigh(shards[1..]);
    }
  }

  lemma {:induction false} OnesCount<T>(xs: seq<T>)
    ensures Sum((x: T) => 1, xs) == |xs|
  {
    if xs != [] {
      OnesCount(xs[1..]);
    }
  }

  // ---- the scheduled totals ----

  /** The schedule of a worker with `len` of `n` devices. */
  function ShareOf(s: Schedule, len: nat, n: nat): Schedule
    requires n > 0
  {
    s.(rate := s.rate * len as real / n as real)
  }

  lemma ScaledCurve(s: Schedule, f: real, t: real)
    requires Valid(s)
    ensures Curve(s.(rate := s.rate * f), t) == Curve(s, t) * f
  {
    var g := s.(rate := s.rate * f);
    if s.ramp > 0.0 && t < s.ramp {
      var d := 2.0 * s.ramp;
      assert g.rate * t * t == (s.rate * t * t) * f;
      Quotient(s.rate * t * t, f, d);
    } else {
      assert Knee(g) == Knee(s) * f;
      Distributes(s.rate, f, t - s.ramp, Knee(s));
    }
  }

  lemma Quotient(a: real, f: real, d: real)
    requires d != 0.0
    ensures (a * f) / d == (a / d) * f
  {
    DivThenMul(a, d);
    assert ((a / d) * f) * d == a * f;
  }

  lemma Distributes(r: real, f: real, x: real, k: real)
    ensures k * f + (r * f) * x == (k + r * x) * f
  {
  }

  function WorkerTotal(s: Schedule, len: nat, n: nat, duration: real): int
    requires n > 0
  {
    TotalDue(ShareOf(s, len, n), 0.0, duration)
  }

  function SumOfTotals(s: Schedule, lens: seq<nat>, n: nat, duration: real): int
    requires n > 0
  {
    if lens == [] then 0 else WorkerTotal(s, lens[0], n, duration) + SumOfTotals(s, lens[1..], n, duration)
  }

  /** The exact share of the curve that `k` of `n` devices stand for. */
  function Part(s: Schedule, k: nat, n: nat, duration: real): real
    requires n > 0
  {
    Curve(s, duration) * (k as real / n as real)
  }

  lemma PartsAdd(s: Schedule, j: nat, k: nat, n: nat, duration: real)
    requires n > 0
    ensures Part(s, j + k, n, duration) == Part(s, j, n, duration) + Part(s, k, n, duration)
  {
    var c, a, b, d := Curve(s, duration), j as real, k as real, n as real;
    assert (a + b) / d == a / d + b / d;
    assert c * (a / d + b / d) == c * (a / d) + c * (b / d);
  }

  lemma WorkerTotalIsRounded(s: Schedule, len: nat, n: nat, duration: real)
    requires Valid(s) && n > 0 && duration > 0.0
    ensures WorkerTotal(s, len, n, duration) == Part(s, len, n, duration).Floor
  {
    var f := len as real / n as real;
    Quotient2(s.rate, len as real, n as real);
    ScaledCurve(s, f, duration);
    assert ShareOf(s, len, n) == s.(rate := s.rate * f);
  }

  lemma Quotient2(r: real, a: real, d: real)
    requires d != 0.0
    ensures r * a / d == r * (a / d)
  {
    DivThenMul(a, d);
    assert (r * (a / d)) * d == r * a;
  }

  lemma {:induction false} TotalsAreRoundedParts(s: Schedule, lens: seq<nat>, n: nat, duration: real)
    requires Valid(s) && n > 0 && duration > 0.0
    ensures SumOfTotals(s, lens, n, duration) as real <= Part(s, SumOf(lens), n, duration)
    ensures Part(s, SumOf(lens), n, duration) <= (SumOfTotals(s, lens, n, duration) + |lens|) as real
    ensures lens != [] ==> Part(s, SumOf(lens), n, duration) < (SumOfTotals(s, lens, n, duration) + |lens|) as real
  {
    if lens == [] {
      assert 0 as real / n as real == 0.0;
    } else {
      TotalsAreRoundedParts(s, lens[1..], n, duration);
      PartsAdd(s, lens[0], SumOf(lens[1..]), n, duration);
      WorkerTotalIsRounded(s, lens[0], n, duration);
    }
  }

  /**
    The scheduled totals of the workers add up to at most the total of an unsharded run, and fall
    short of it by less than the number of workers.
   */
  lemma ShardTotals(s: Schedule, lens: seq<nat>, duration: real)
    requires Valid(s) && lens != [] && SumOf(lens) > 0
    ensures var sum := SumOfTotals(s, lens, SumOf(lens), duration);
      sum <= TotalDue(s, 0.0, duration) < sum + |lens|
  {
    var n := SumOf(lens);
    if duration > 0.0 {
      TotalsAreRoundedParts(s, lens, n, duration);
      WholePart(s, n, duration);
      RoundsDown(Curve(s, duration), SumOfTotals(s, lens, n, duration), |lens|);
    } else {
      NothingDue(s, lens, n, duration);
    }
  }

  lemma WholePart(s: Schedule, n: nat, duration: real)
    requires n > 0
    ensures Part(s, n, n, duration) == Curve(s, duration)
  {
    assert n as real / n as real == 1.0;
  }

  lemma RoundsDown(c: real, sum: int, w: nat)
    requires sum as real <= c < (sum + w) as real
    ensures sum <= (c + 0.0).Floor < sum + w
  {
  }

  /** Dealing the devices out loses less than one scheduled message a worker. */
  lemma ShardedRun<T>(devices: seq<T>, workers: nat, s: Schedule, duration: real)
    requires Valid(s) && devices != [] && workers > 0
    ensures var shards := Shards(devices, workers, 0);
      var sum := SumOfTotals(s, Lengths(shards), |devices|, duration);
      0 < |shards| && sum <= TotalDue(s, 0.0, duration) < sum + |shards|
  {
    var shards := Shards(devices, workers, 0);
    ShardsPartition((x: T) => 1, devices, workers);
    LengthsWeigh(shards);
    OnesCount(devices);
    ShardTotals(s, Lengths(shards), duration);
  }

  lemma {:induction false} NothingDue(s: Schedule, lens: seq<nat>, n: nat, duration: real)
    requires n > 0 && duration <= 0.0
    ensures SumOfTotals(s, lens, n, duration) == 0
  {
    if lens != [] {
      NothingDue(s, lens[1..], n, duration);
    }
  }

  // ---- merging the results ----

  /** The counters of one worker's result, all of which `merge_results` adds up. */
  datatype Result = Result(
    dueTotal: nat,
    dispatched: nat,
    deficit: nat,
    blocked: nat,
    behind: nat,
    attempted: nat,
    accepted: nat,
    connectsOk: nat,
    connectsFailed: nat,
    disconnects: nat,
    reconnects: nat,
    failed: map<string, nat>,
    connacks: map<string, nat>)

  const NO_RESULT := Result(0, 0, 0, 0, 0, 0, 0, 0, 0, 0, 0, map[], map[])

  function Add(a: Result, b: Result): Result {
    Result(
      a.dueTotal + b.dueTotal, a.dispatched + b.dispatched, a.deficit + b.deficit, a.blocked + b.blocked,
      a.behind + b.behind, a.attempted + b.attempted, a.accepted + b.accepted,
      a.connectsOk + b.connectsOk, a.connectsFailed + b.connectsFailed,
      a.disconnects + b.disconnects, a.reconnects + b.reconnects,
      AddCounters(a.failed, b.failed), AddCounters(a.connacks, b.connacks))
  }

  /** A worker that accounts for every message of its window. */
  ghost predicate Accounts(r: Result) {
    && r.dispatched + r.deficit == r.dueTotal
    && r.dispatched == r.accepted + Total(r.failed)
    && (r.deficit > 0 ==> r.blocked > 0)
  }

  lemma AddAccounts(a: Result, b: Result)
    requires Accounts(a) && Accounts(b)
    ensures Accounts(Add(a, b))
  {
    TotalOfSum(a.failed, b.failed);
  }

  /** A worker that died reports no counters, and is left out. */
  function Good(results: seq<Option<Result>>): seq<Result> {
    if results == [] then [] else (if results[0].None? then [] else [results[0].value]) + Good(results[1..])
  }

  function AddAll(rs: seq<Result>): Result {
    if rs == [] then NO_RESULT else Add(AddAll(rs[..|rs| - 1]), rs[|rs| - 1])
  }

  function FailedAs(reason: string): Result -> nat { (r: Result) => Get(r.failed, reason) }

  function AnsweredWith(code: string): Result -> nat { (r: Result) => Get(r.connacks, code) }

  lemma SumOfLast(f: Result -> nat, rs: seq<Result>)
    requires rs != []
    ensures Sum(f, rs) == Sum(f, rs[..|rs| - 1]) + f(rs[|rs| - 1])
  {
    var init, last := rs[..|rs| - 1], [rs[|rs| - 1]];
    assert rs == init + last && last[1..] == [];
    SumAppend(f, init, last);
  }

  /** A field that adds up adds up over all workers. */
  lemma {:induction false} MergedField(f: Result -> nat, rs: seq<Result>)
    requires f(NO_RESULT) == 0 && forall a, b :: f(Add(a, b)) == f(a) + f(b)
    ensures f(AddAll(rs)) == Sum(f, rs)
    decreases |rs|
  {
    if rs != [] {
      MergedField(f, rs[..|rs| - 1]);
      SumOfLast(f, rs);
    }
  }

  /** The merged message counters are the sums over the workers, those of the failures reason by reason. */
  lemma MergedCounters(rs: seq<Result>, reason: string)
    ensures var agg := AddAll(rs);
      && agg.dueTotal == Sum((r: Result) => r.dueTotal, rs) && agg.dispatched == Sum((r: Result) => r.dispatched, rs)
      && agg.deficit == Sum((r: Result) => r.deficit, rs) && agg.blocked == Sum((r: Result) => r.blocked, rs)
      && agg.behind == Sum((r: Result) => r.behind, rs)
      && agg.attempted == Sum((r: Result) => r.attempted, rs) && agg.accepted == Sum((r: Result) => r.accepted, rs)
      && Get(agg.failed, reason) == Sum(FailedAs(reason), rs)
  {
    MergedField((r: Result) => r.dueTotal, rs);
    MergedField((r: Result) => r.dispatched, rs);
    MergedField((r: Result) => r.deficit, rs);
    MergedField((r: Result) => r.blocked, rs);
    MergedField((r: Result) => r.behind, rs);
    MergedField((r: Result) => r.attempted, rs);
    MergedField((r: Result) => r.accepted, rs);
    MergedField(FailedAs(reason), rs);
  }

  /** So are the connection counters, those of the CONNACK answers code by code. */
  lemma MergedConnections(rs: seq<Result>, code: string)
    ensures var agg := AddAll(rs);
      && agg.connectsOk == Sum((r: Result) => r.connectsOk, rs)
      && agg.connectsFailed == Sum((r: Result) => r.connectsFailed, rs)
      && agg.disconnects == Sum((r: Result) => r.disconnects, rs)
      && agg.reconnects == Sum((r: Result) => r.reconnects, rs)
      && Get(agg.connacks, code) == Sum(AnsweredWith(code), rs)
  {
    MergedField((r: Result) => r.connectsOk, rs);
    MergedField((r: Result) => r.connectsFailed, rs);
    MergedField((r: Result) => r.disconnects, rs);
    MergedField((r: Result) => r.reconnects, rs);
    MergedField(AnsweredWith(code), rs);
  }

  /** If every worker accounts for its messages, so does the merged result. */
  lemma {:induction false} MergedAccounts(rs: seq<Result>)
    requires forall r | r in rs :: Accounts(r)
    ensures Accounts(AddAll(rs))
    decreases |rs|
  {
    if rs != [] {
      MergedAccounts(rs[..|rs| - 1]);
      AddAccounts(AddAll(rs[..|rs| - 1]), rs[|rs| - 1]);
    }
  }

  /** `merge_results`, for the counters. */
  method MergeResults(results: seq<Option<Result>>) returns (agg: Result)
    ensures agg == AddAll(Good(results))
    ensures (forall r | r in Good(results) :: Accounts(r)) ==> Accounts(agg)
  {
    var good := Good(results);
    agg := NO_RESULT;
    for i := 0 to |good|
      invariant agg == AddAll(good[..i])
    {
      var r := good[i];
      assert good[..i + 1][..i] == good[..i];
      var failed := AddItems(agg.failed, r.failed);
      var connacks := AddItems(agg.connacks, r.connacks);
      agg := Result(
        agg.dueTotal + r.dueTotal, agg.dispatched + r.dispatched, agg.deficit + r.deficit, agg.blocked + r.blocked,
        agg.behind + r.behind, agg.attempted + r.attempted, agg.accepted + r.accepted,
        agg.connectsOk + r.connectsOk, agg.connectsFailed + r.connectsFailed,
        agg.disconnects + r.disconnects, agg.reconnects + r.reconnects, failed, connacks);
    }
    assert good[..|good|] == good;
    if forall r | r in good :: Accounts(r) {
      MergedAccounts(good);
    }
  }
}
