/**
  The bounded, mergeable latency histogram. A histogram is judged against the list of samples it
  stands for: the counters are exact, and a percentile is close to the true one from below.
 */
module Histogram {
  import opened Wrappers
  import opened Buckets
  import opened Sums
  import F = Framing
  import opened MapSums
  import opened Sequences

  datatype Hist = Hist(buckets: map<nat, nat>, count: nat, total: nat, minUs: int, maxUs: int)

  const EMPTY := Hist(map[], 0, 0, -1, -1)

  // ---- samples ----

  function InBucket(b: nat): nat -> bool { (x: nat) => BucketIndex(x) == b }

  function UpTo(b: nat): nat -> bool { (x: nat) => BucketIndex(x) <= b }

  function InSome(bs: set<nat>): nat -> bool { (x: nat) => BucketIndex(x) in bs }

  lemma {:induction false} CountPositive(p: nat -> bool, xs: seq<nat>)
    ensures Count(p, xs) <= |xs|
    ensures Count(p, xs) > 0 <==> exists x | x in xs :: p(x)
  {
    if xs != [] {
      CountPositive(p, xs[1..]);
      assert forall x :: x in xs <==> x == xs[0] || x in xs[1..];
    }
  }

  lemma {:induction false} CountPartition(b: nat, bs: set<nat>, xs: seq<nat>)
    requires b !in bs
    ensures Count(InSome(bs + {b}), xs) == Count(InSome(bs), xs) + Count(InBucket(b), xs)
  {
    if xs != [] {
      CountPartition(b, bs, xs[1..]);
    }
  }

  // ---- histograms ----

  /** The bucket counters are the exact counts of the samples, and no counter is zero. */
  ghost predicate BucketsFit(buckets: map<nat, nat>, xs: seq<nat>) {
    forall b: nat :: if b in buckets then buckets[b] == Count(InBucket(b), xs) > 0 else Count(InBucket(b), xs) == 0
  }

  ghost predicate MinFits(minUs: int, xs: seq<nat>) {
    if xs == [] then minUs == -1 else minUs in xs && forall x | x in xs :: minUs <= x
  }

  ghost predicate MaxFits(maxUs: int, xs: seq<nat>) {
    if xs == [] then maxUs == -1 else maxUs in xs && forall x | x in xs :: x <= maxUs
  }

  /** `h` is the histogram of the samples `xs`. */
  ghost predicate Represents(h: Hist, xs: seq<nat>) {
    && BucketsFit(h.buckets, xs)
    && h.count == |xs| && h.total == SumOf(xs)
    && MinFits(h.minUs, xs) && MaxFits(h.maxUs, xs)
  }

  /** `int(us)`, with negative values taken as zero. */
  function Micros(us: real): (n: nat)
    ensures if us < 0.0 then n == 0 else n as real <= us < n as real + 1.0
  {
    if us < 0.0 then 0 else us.Floor
  }

  function RecordStep(h: Hist, v: nat): Hist {
    var b := BucketIndex(v);
    Hist(h.buckets[b := Get(h.buckets, b) + 1], h.count + 1, h.total + v,
         if h.minUs < 0 || v < h.minUs then v else h.minUs,
         if v > h.maxUs then v else h.maxUs)
  }

  lemma BucketRecorded(buckets: map<nat, nat>, xs: seq<nat>, v: nat)
    requires BucketsFit(buckets, xs)
    ensures BucketsFit(buckets[BucketIndex(v) := Get(buckets, BucketIndex(v)) + 1], xs + [v])
  {
    forall b: nat
      ensures Count(InBucket(b), xs + [v]) == Count(InBucket(b), xs) + if BucketIndex(v) == b then 1 else 0
    {
      SumAppend(One(InBucket(b)), xs, [v]);
      assert [v][1..] == [];
    }
  }

  lemma ExtremesRecorded(minUs: int, maxUs: int, xs: seq<nat>, v: nat)
    requires MinFits(minUs, xs) && MaxFits(maxUs, xs)
    ensures MinFits(if minUs < 0 || v < minUs then v else minUs, xs + [v])
    ensures MaxFits(if v > maxUs then v else maxUs, xs + [v])
  {
    assert forall x :: x in xs + [v] <==> x in xs || x == v;
  }

  lemma RecordFits(h: Hist, xs: seq<nat>, v: nat)
    requires Represents(h, xs)
    ensures Represents(RecordStep(h, v), xs + [v])
  {
    BucketRecorded(h.buckets, xs, v);
    ExtremesRecorded(h.minUs, h.maxUs, xs, v);
    SumAppend(Itself, xs, [v]);
    assert [v][1..] == [];
  }

  lemma EmptyFits()
    ensures Represents(EMPTY, [])
  {
  }

  /** Two histograms of the same samples, in whatever order, are the same. */
  lemma HistogramIgnoresOrder(h: Hist, xs: seq<nat>, g: Hist, ys: seq<nat>)
    requires Represents(h, xs) && Represents(g, ys) && multiset(xs) == multiset(ys)
    ensures h == g
  {
    forall b: nat
      ensures Get(h.buckets, b) == Get(g.buckets, b) && (b in h.buckets <==> b in g.buckets)
    {
      SumOfPermutation(One(InBucket(b)), xs, ys);
    }
    assert |multiset(xs)| == |xs| && |multiset(ys)| == |ys|;
    assert forall x :: x in xs <==> x in multiset(xs);
    assert forall x :: x in ys <==> x in multiset(ys);
    SumOfPermutation(Itself, xs, ys);
    assert h.buckets == g.buckets;
  }

  // ---- quantiles ----

  /** The first bucket up to which at least `target` samples lie. */
  ghost predicate FirstReaching(xs: seq<nat>, target: real, b: nat) {
    && Count(UpTo(b), xs) as real >= target
    && forall a: nat | a < b :: (Count(UpTo(a), xs) as real) < target
  }

  /** The first bucket up to which at least a fraction `q` of the samples lies. */
  ghost predicate IsQuantileBucket(xs: seq<nat>, q: real, b: nat) {
    FirstReaching(xs, q * |xs| as real, b)
  }

  ghost predicate Sorted(ys: seq<nat>) {
    forall i, j | 0 <= i < j < |ys| :: ys[i] <= ys[j]
  }

  /** `k` is the nearest rank: the least whole number that is at least `q` times the sample count. */
  ghost predicate IsRank(q: real, n: nat, k: nat) {
    k as real - 1.0 < q * n as real <= k as real
  }

  lemma {:induction false} RankInSorted(ys: seq<nat>, k: nat, b: nat)
    requires Sorted(ys) && 0 < k <= |ys|
    ensures k <= Count(UpTo(b), ys) <==> BucketIndex(ys[k - 1]) <= b
    decreases |ys|
  {
    var tail := ys[1..];
    assert forall i, j | 0 <= i < j < |tail| :: tail[i] == ys[i + 1] && tail[j] == ys[j + 1];
    IndexMonotone(ys[0], ys[k - 1]);
    if k > 1 {
      RankInSorted(tail, k - 1, b);
      assert tail[k - 2] == ys[k - 1];
      if BucketIndex(ys[0]) > b {
        CountPositive(UpTo(b), tail);
        NoneUpTo(ys, b);
      }
    } else if BucketIndex(ys[0]) > b {
      NoneUpTo(ys, b);
    }
  }

  lemma NoneUpTo(ys: seq<nat>, b: nat)
    requires Sorted(ys) && ys != [] && BucketIndex(ys[0]) > b
    ensures Count(UpTo(b), ys) == 0
  {
    CountPositive(UpTo(b), ys);
    forall x | x in ys
      ensures !UpTo(b)(x)
    {
      IndexMonotone(ys[0], x);
    }
  }

  /**
    The reported quantile never exceeds the sample of nearest rank, and is short of it by at most
    1/128 of the reported value.
   */
  lemma QuantileBound(xs: seq<nat>, ys: seq<nat>, q: real, k: nat, b: nat)
    requires xs != [] && 0.0 < q <= 1.0 && IsQuantileBucket(xs, q, b)
    requires Sorted(ys) && multiset(ys) == multiset(xs) && IsRank(q, |xs|, k)
    ensures 0 < k <= |ys| && BucketIndex(ys[k - 1]) == b
    ensures BucketLower(b) <= ys[k - 1] && 128 * (ys[k - 1] - BucketLower(b)) <= BucketLower(b)
  {
    assert |multiset(ys)| == |ys| && |multiset(xs)| == |xs|;
    RankInRange(q, |xs|, k);
    var x := ys[k - 1];
    var c := BucketIndex(x);
    SumOfPermutation(One(UpTo(b)), xs, ys);
    RankInSorted(ys, k, b);
    SumOfPermutation(One(UpTo(c)), xs, ys);
    RankInSorted(ys, k, c);
    LowerIsClose(x);
  }

  lemma RankInRange(q: real, n: nat, k: nat)
    requires n > 0 && 0.0 < q <= 1.0 && IsRank(q, n, k)
    ensures 0 < k <= n
  {
    TargetInRange(q, n, q * n as real);
  }

  // ---- the class ----

  method Smallest(s: set<nat>) returns (m: nat)
    requires s != {}
    ensures m in s && forall x | x in s :: m <= x
  {
    m :| m in s;
    var rest := s - {m};
    while rest != {}
      invariant m in s && rest <= s && forall x | x in s && x !in rest :: m <= x
      decreases rest
    {
      var x :| x in rest;
      if x < m {
        m := x;
      }
      rest := rest - {x};
    }
  }

  ghost predicate Ascending(ks: seq<nat>) {
    forall i, j | 0 <= i < j < |ks| :: ks[i] < ks[j]
  }

  /** `sorted` of the keys. */
  method SortedKeys(s: set<nat>) returns (ks: seq<nat>)
    ensures Ascending(ks) && Elements(ks) == s
  {
    ks := [];
    var rest := s;
    while rest != {}
      invariant Ascending(ks) && Elements(ks) + rest == s
      invariant forall k, r | k in ks && r in rest :: k < r
      decreases rest
    {
      var m := Smallest(rest);
      ghost var before := Elements(ks);
      forall i | 0 <= i < |ks|
        ensures ks[i] < m
      {
        assert ks[i] in ks && m in rest;
      }
      ks := ks + [m];
      assert Elements(ks) == before + {m};
      rest := rest - {m};
    }
  }

  lemma PrefixIsBelow(ks: seq<nat>, j: nat)
    requires Ascending(ks) && j < |ks|
    ensures forall k | k in Elements(ks) :: k in Elements(ks[..j]) <==> k < ks[j]
    ensures Elements(ks[..j + 1]) == Elements(ks[..j]) + {ks[j]}
    ensures ks[j] !in Elements(ks[..j])
  {
    assert ks[..j + 1] == ks[..j] + [ks[j]];
    forall k | k in Elements(ks)
      ensures k in Elements(ks[..j]) <==> k < ks[j]
    {
      var i :| 0 <= i < |ks| && ks[i] == k;
      if i < j { assert ks[..j][i] == k; }
    }
  }

  class Histogram {
    var buckets: map<nat, nat>
    var count: nat
    var total: nat
    var minUs: int
    var maxUs: int

    constructor ()
      ensures View() == EMPTY
    {
      buckets, count, total, minUs, maxUs := map[], 0, 0, -1, -1;
    }

    function View(): Hist
      reads this
    {
      Hist(buckets, count, total, minUs, maxUs)
    }

    method Record(us: real, ghost xs: seq<nat>)
      requires Represents(View(), xs)
      modifies this
      ensures View() == RecordStep(old(View()), Micros(us))
      ensures Represents(View(), xs + [Micros(us)])
    {
      var v := Micros(us);
      RecordFits(View(), xs, v);
      Tally(v);
    }

    /** `record`, once the sample is a number of microseconds. */
    method Tally(v: nat)
      modifies this
      ensures View() == RecordStep(old(View()), v)
    {
      var b := BucketIndex(v);
      buckets := buckets[b := Get(buckets, b) + 1];
      count := count + 1;
      total := total + v;
      if minUs < 0 || v < minUs {
        minUs := v;
      }
      if v > maxUs {
        maxUs := v;
      }
    }

    /** `percentile`, in milliseconds; `b` is the bucket it reports. */
    method Percentile(q: real, ghost xs: seq<nat>) returns (ms: real, ghost b: nat)
      requires Represents(View(), xs)
      ensures xs == [] ==> ms == -1.0
      ensures xs != [] && 0.0 < q <= 1.0 ==> IsQuantileBucket(xs, q, b) && ms == BucketLower(b) as real / 1000.0
      ensures xs != [] && q > 1.0 ==> ms == maxUs as real / 1000.0
      ensures xs != [] && q <= 0.0 ==> b == BucketIndex(minUs) && ms == BucketLower(b) as real / 1000.0
    {
      b := 0;
      if count == 0 {
        return -1.0, b;
      }
      RepresentsMeansExact(View(), xs);
      var found := Reached(buckets, count, minUs, q, xs);
      if found == None {
        return maxUs as real / 1000.0, b;
      }
      return BucketLower(found.value) as real / 1000.0, found.value;
    }
  }

  /** The bucket at which the loop of `percentile` returns. */
  method Reached(buckets: map<nat, nat>, count: nat, ghost minUs: int, q: real, ghost xs: seq<nat>)
    returns (found: Option<nat>)
    requires Exact(buckets, xs) && count == |xs| > 0 && MinFits(minUs, xs)
    ensures IsQuantile(xs, minUs, q, found)
  {
    var target := q * count as real;
    found := FindBucket(buckets, target, xs);
    FoundIsTheQuantile(xs, count, minUs, q, target, found);
  }

  /** The bucket of the `q`-quantile, that of the minimum for a `q` below, none for a `q` above. */
  ghost predicate IsQuantile(xs: seq<nat>, minUs: int, q: real, found: Option<nat>) {
    && (found.Some? <==> q <= 1.0)
    && (0.0 < q <= 1.0 ==> IsQuantileBucket(xs, q, found.value))
    && (q <= 0.0 ==> minUs >= 0 && found.value == BucketIndex(minUs))
  }

  ghost predicate Finds(xs: seq<nat>, target: real, found: Option<nat>) {
    match found
    case None => xs == [] || (|xs| as real) < target
    case Some(b) =>
      && target <= |xs| as real
      && (target > 0.0 ==> FirstReaching(xs, target, b)) && (target <= 0.0 ==> IsFirstBucket(xs, b))
  }

  lemma FoundIsTheQuantile(xs: seq<nat>, n: nat, minUs: int, q: real, target: real, found: Option<nat>)
    requires n == |xs| > 0 && MinFits(minUs, xs) && target == q * n as real && Finds(xs, target, found)
    ensures IsQuantile(xs, minUs, q, found)
  {
    TargetInRange(q, n, target);
    if q <= 0.0 {
      FirstBucketOfMinimum(xs, minUs, found.value);
    }
  }

  /** The loop of `percentile`: buckets in ascending order until the running count reaches the target. */
  method FindBucket(buckets: map<nat, nat>, target: real, ghost xs: seq<nat>) returns (found: Option<nat>)
    requires Exact(buckets, xs)
    ensures Finds(xs, target, found)
  {
    var seen: nat := 0;
    var keys := SortedKeys(buckets.Keys);
    SeenAtTheEnds(keys, xs);
    for j := 0 to |keys|
      invariant seen == Seen(keys, j, xs)
      invariant j == 0 || seen as real < target
    {
      var b := keys[j];
      SeenNext(keys, j, xs);
      seen := seen + buckets[b];
      if seen as real >= target {
        ReachedAt(keys, xs, target, j);
        FirstKeyIsFirst(keys, xs);
        return Some(b);
      }
    }
    return None;
  }

  /** Some sample is in the bucket, and none is in an earlier one. */
  ghost predicate IsFirstBucket(xs: seq<nat>, b: nat) {
    (exists x | x in xs :: BucketIndex(x) == b) && forall x | x in xs :: b <= BucketIndex(x)
  }

  lemma FirstKeyIsFirst(keys: seq<nat>, xs: seq<nat>)
    requires Ascending(keys) && keys != [] && Count(InBucket(keys[0]), xs) > 0
    requires forall x | x in xs :: BucketIndex(x) in Elements(keys)
    ensures IsFirstBucket(xs, keys[0])
  {
    CountPositive(InBucket(keys[0]), xs);
    var x :| x in xs && InBucket(keys[0])(x);
    assert BucketIndex(x) == keys[0];
  }

  lemma FirstBucketOfMinimum(xs: seq<nat>, minUs: int, b: nat)
    requires xs != [] && MinFits(minUs, xs) && IsFirstBucket(xs, b)
    ensures b == BucketIndex(minUs)
  {
    var x :| x in xs && BucketIndex(x) == b;
    IndexMonotone(minUs, x);
  }

  /** The number of samples in the first `j` of the keys. */
  ghost function Seen(keys: seq<nat>, j: nat, xs: seq<nat>): nat
    requires j <= |keys|
  {
    Count(InSome(Elements(keys[..j])), xs)
  }

  lemma SeenAtTheEnds(keys: seq<nat>, xs: seq<nat>)
    requires forall x | x in xs :: BucketIndex(x) in Elements(keys)
    ensures Seen(keys, 0, xs) == 0 && Seen(keys, |keys|, xs) == |xs|
  {
    NoneInNone(xs);
    assert Elements(keys[..0]) == {};
    assert keys[..|keys|] == keys;
    AllInKeys(Elements(keys), xs);
  }

  lemma SeenNext(keys: seq<nat>, j: nat, xs: seq<nat>)
    requires Ascending(keys) && j < |keys|
    ensures Seen(keys, j + 1, xs) == Seen(keys, j, xs) + Count(InBucket(keys[j]), xs)
  {
    PrefixIsBelow(keys, j);
    CountPartition(keys[j], Elements(keys[..j]), xs);
  }

  /** The bucket at which the running count first reaches the target. */
  lemma ReachedAt(keys: seq<nat>, xs: seq<nat>, target: real, j: nat)
    requires Ascending(keys) && j < |keys| && forall x | x in xs :: BucketIndex(x) in Elements(keys)
    requires j == 0 || (Seen(keys, j, xs) as real) < target
    requires Seen(keys, j + 1, xs) as real >= target
    ensures target <= |xs| as real && (target > 0.0 ==> FirstReaching(xs, target, keys[j]))
  {
    PrefixIsBelow(keys, j);
    assert j == 0 ==> Elements(keys[..j]) == {};
    CountedUpTo(Elements(keys), xs, Elements(keys[..j]), keys[j]);
    CountPositive(UpTo(keys[j]), xs);
    NoneInNone(xs);
  }

  /** The counters count exactly the samples of their bucket, and every sample has one. */
  ghost predicate Exact(buckets: map<nat, nat>, xs: seq<nat>) {
    && (forall b | b in buckets :: buckets[b] == Count(InBucket(b), xs) > 0)
    && (forall x | x in xs :: BucketIndex(x) in buckets.Keys)
  }

  lemma RepresentsMeansExact(h: Hist, xs: seq<nat>)
    requires Represents(h, xs)
    ensures Exact(h.buckets, xs) && h.count == |xs| && MinFits(h.minUs, xs)
  {
    forall x | x in xs
      ensures BucketIndex(x) in h.buckets
    {
      CountPositive(InBucket(BucketIndex(x)), xs);
      assert InBucket(BucketIndex(x))(x);
    }
  }

  lemma {:induction false} NoneInNone(xs: seq<nat>)
    ensures Count(InSome({}), xs) == 0
  {
    CountPositive(InSome({}), xs);
  }

  lemma AllInKeys(keys: set<nat>, xs: seq<nat>)
    requires forall x | x in xs :: BucketIndex(x) in keys
    ensures Count(InSome(keys), xs) == |xs|
  {
    AllOnes(One(InSome(keys)), xs);
  }

  lemma {:induction false} AllOnes(f: nat -> nat, xs: seq<nat>)
    requires forall x | x in xs :: f(x) == 1
    ensures Sum(f, xs) == |xs|
  {
    if xs != [] {
      AllOnes(f, xs[1..]);
    }
  }

  /** Having added up the buckets below `b` and `b` itself, one has counted everything up to `b`. */
  lemma CountedUpTo(keys: set<nat>, xs: seq<nat>, done: set<nat>, b: nat)
    requires forall x | x in xs :: BucketIndex(x) in keys
    requires forall k | k in keys :: k in done <==> k < b
    ensures Count(UpTo(b), xs) == Count(InSome(done + {b}), xs)
    ensures forall a: nat | a < b :: Count(UpTo(a), xs) <= Count(InSome(done), xs)
  {
    forall x | x in xs
      ensures One(UpTo(b))(x) == One(InSome(done + {b}))(x)
    {
      assert BucketIndex(x) in keys;
    }
    SumPointwise(One(UpTo(b)), One(InSome(done + {b})), xs);
    forall a: nat | a < b
      ensures Count(UpTo(a), xs) <= Count(InSome(done), xs)
    {
      forall x | x in xs
        ensures One(UpTo(a))(x) <= One(InSome(done))(x)
      {
        assert BucketIndex(x) in keys;
      }
      SumAtMost(One(UpTo(a)), One(InSome(done)), xs);
    }
  }

  lemma Sign(a: real, r: real)
    requires r > 0.0
    ensures a > 0.0 <==> a * r > 0.0
  {
  }

  lemma TargetInRange(q: real, n: nat, target: real)
    requires n > 0 && target == q * n as real
    ensures q > 0.0 <==> target > 0.0
    ensures q <= 1.0 <==> target <= n as real
  {
    var r := n as real;
    Sign(q, r);
    Sign(q - 1.0, r);
    assert (q - 1.0) * r == q * r - r;
  }

  // ---- merging ----

  function MergeStep(h: Hist, d: Hist): Hist {
    Hist(AddCounters(h.buckets, d.buckets), h.count + d.count, h.total + d.total,
         if d.minUs >= 0 && (h.minUs < 0 || d.minUs < h.minUs) then d.minUs else h.minUs,
         if d.maxUs > h.maxUs then d.maxUs else h.maxUs)
  }

  lemma MergedBucketsFit(a: map<nat, nat>, xs: seq<nat>, b: map<nat, nat>, ys: seq<nat>)
    requires BucketsFit(a, xs) && BucketsFit(b, ys)
    ensures BucketsFit(AddCounters(a, b), xs + ys)
  {
    var m := AddCounters(a, b);
    forall k: nat
      ensures if k in m then m[k] == Count(InBucket(k), xs + ys) > 0 else Count(InBucket(k), xs + ys) == 0
    {
      SumAppend(One(InBucket(k)), xs, ys);
      assert Get(a, k) == Count(InBucket(k), xs) && Get(b, k) == Count(InBucket(k), ys);
    }
  }

  lemma MergeFits(h: Hist, xs: seq<nat>, d: Hist, ys: seq<nat>)
    requires Represents(h, xs) && Represents(d, ys)
    ensures Represents(MergeStep(h, d), xs + ys)
  {
    MergedBucketsFit(h.buckets, xs, d.buckets, ys);
    SumAppend(Itself, xs, ys);
    var m := MergeStep(h, d);
    ExtremesFit(h, xs, d, ys);
  }

  lemma ExtremesFit(h: Hist, xs: seq<nat>, d: Hist, ys: seq<nat>)
    requires MinFits(h.minUs, xs) && MaxFits(h.maxUs, xs) && MinFits(d.minUs, ys) && MaxFits(d.maxUs, ys)
    ensures MinFits(MergeStep(h, d).minUs, xs + ys) && MaxFits(MergeStep(h, d).maxUs, xs + ys)
  {
    assert forall x :: x in xs + ys <==> x in xs || x in ys;
    assert xs == [] ==> xs + ys == ys;
    assert ys == [] ==> xs + ys == xs;
  }

  function MergeAll(ds: seq<Option<Hist>>): Hist {
    if ds == [] then EMPTY else
    var h, last := MergeAll(ds[..|ds| - 1]), ds[|ds| - 1];
    if last.None? then h else MergeStep(h, last.value)
  }

  /** Each worker's histogram is that of its samples; a worker without a result has none. */
  ghost predicate WorkersFit(ds: seq<Option<Hist>>, xss: seq<seq<nat>>) {
    |ds| == |xss| && forall i | 0 <= i < |ds| :: WorkerFits(ds[i], xss[i])
  }

  ghost predicate WorkerFits(d: Option<Hist>, xs: seq<nat>) {
    if d.Some? then Represents(d.value, xs) else xs == []
  }

  /** `merge`; workers without a result are skipped. */
  method Merge(ds: seq<Option<Hist>>) returns (h: Hist)
    ensures h == MergeAll(ds)
    ensures forall xss | WorkersFit(ds, xss) :: Represents(h, F.Concat(xss))
  {
    h := EMPTY;
    for i := 0 to |ds|
      invariant h == MergeAll(ds[..i])
    {
      assert ds[..i + 1][..i] == ds[..i];
      if ds[i] == None {
        continue;
      }
      var d := ds[i].value;
      var buckets := AddItems(h.buckets, d.buckets);
      h := Hist(buckets, h.count + d.count, h.total + d.total,
        if d.minUs >= 0 && (h.minUs < 0 || d.minUs < h.minUs) then d.minUs else h.minUs,
        if d.maxUs > h.maxUs then d.maxUs else h.maxUs);
    }
    assert ds[..|ds|] == ds;
    forall xss | WorkersFit(ds, xss)
      ensures Represents(h, F.Concat(xss))
    {
      MergedFits(ds, xss);
    }
  }

  /** The merged histogram is that of all samples of all workers. */
  lemma {:induction false} MergedFits(ds: seq<Option<Hist>>, xss: seq<seq<nat>>)
    requires WorkersFit(ds, xss)
    ensures Represents(MergeAll(ds), F.Concat(xss))
    decreases |ds|
  {
    if ds == [] {
      EmptyFits();
    } else {
      var n := |ds| - 1;
      assert forall i | 0 <= i < n :: ds[..n][i] == ds[i] && xss[..n][i] == xss[i] && WorkerFits(ds[i], xss[i]);
      MergedFits(ds[..n], xss[..n]);
      F.ConcatNext(xss, n);
      assert xss[..n + 1] == xss && WorkerFits(ds[n], xss[n]);
      if ds[n].Some? {
        MergeFits(MergeAll(ds[..n]), F.Concat(xss[..n]), ds[n].value, xss[n]);
      } else {
        assert F.Concat(xss[..n]) + [] == F.Concat(xss[..n]);
      }
    }
  }

  lemma ConcatInsert(yss: seq<seq<nat>>, j: nat, xs: seq<nat>)
    requires j <= |yss|
    ensures multiset(F.Concat(yss[..j] + [xs] + yss[j..])) == multiset(xs) + multiset(F.Concat(yss))
  {
    F.ConcatAppend(yss[..j] + [xs], yss[j..]);
    F.ConcatAppend(yss[..j], [xs]);
    F.ConcatOne(xs);
    F.ConcatAppend(yss[..j], yss[j..]);
    assert yss == yss[..j] + yss[j..];
  }

  lemma FitsInserted(es: seq<Option<Hist>>, yss: seq<seq<nat>>, j: nat, xs: seq<nat>)
    requires j < |es| == |yss| + 1 && WorkersFit(es[..j] + es[j + 1..], yss) && WorkerFits(es[j], xs)
    ensures WorkersFit(es, yss[..j] + [xs] + yss[j..])
  {
    var rest, all := es[..j] + es[j + 1..], yss[..j] + [xs] + yss[j..];
    forall i | 0 <= i < |es|
      ensures WorkerFits(es[i], all[i])
    {
      if i < j {
        assert rest[i] == es[i] && all[i] == yss[i] && WorkerFits(rest[i], yss[i]);
      } else if i > j {
        assert rest[i - 1] == es[i] && all[i] == yss[i - 1] && WorkerFits(rest[i - 1], yss[i - 1]);
      }
    }
  }

  /** The samples of the workers, in the order in which their results are merged. */
  lemma {:induction false} SamplesInOrder(ds: seq<Option<Hist>>, xss: seq<seq<nat>>, es: seq<Option<Hist>>)
    returns (yss: seq<seq<nat>>)
    requires WorkersFit(ds, xss) && multiset(ds) == multiset(es)
    ensures WorkersFit(es, yss) && multiset(F.Concat(yss)) == multiset(F.Concat(xss))
    decreases |ds|
  {
    assert |multiset(ds)| == |ds| && |multiset(es)| == |es|;
    if ds == [] {
      yss := [];
    } else {
      var j := MatchFirst(ds, es);
      assert forall i | 0 <= i < |ds| - 1 ::
        ds[1..][i] == ds[i + 1] && xss[1..][i] == xss[i + 1] && WorkerFits(ds[i + 1], xss[i + 1]);
      var rest := SamplesInOrder(ds[1..], xss[1..], es[..j] + es[j + 1..]);
      yss := rest[..j] + [xss[0]] + rest[j..];
      FitsInserted(es, rest, j, xss[0]);
      ConcatInsert(rest, j, xss[0]);
    }
  }

  /** The results of the workers may be merged in any order. */
  lemma MergeIgnoresOrder(ds: seq<Option<Hist>>, xss: seq<seq<nat>>, es: seq<Option<Hist>>)
    requires WorkersFit(ds, xss) && multiset(ds) == multiset(es)
    ensures MergeAll(ds) == MergeAll(es)
  {
    var yss := SamplesInOrder(ds, xss, es);
    MergedFits(ds, xss);
    MergedFits(es, yss);
    HistogramIgnoresOrder(MergeAll(ds), F.Concat(xss), MergeAll(es), F.Concat(yss));
  }
}
