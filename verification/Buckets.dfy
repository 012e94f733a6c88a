/**
  The log-linear buckets of the latency histogram: 128 sub-buckets per power of two, so that the
  lower bound of a bucket is within 1/128 of everything in it.
 */
module Buckets {
  const SUB_COUNT := 128

  function Pow2(m: nat): (p: nat)
    ensures p > 0
  {
    if m == 0 then 1 else 2 * Pow2(m - 1)
  }

  /** `int.bit_length`. */
  function BitLength(v: nat): nat {
    if v == 0 then 0 else 1 + BitLength(v / 2)
  }

  lemma {:induction false} BitLengthBounds(v: nat)
    requires v > 0
    ensures BitLength(v) > 0 && Pow2(BitLength(v) - 1) <= v < Pow2(BitLength(v))
  {
    if v > 1 {
      BitLengthBounds(v / 2);
      assert Pow2(BitLength(v) - 1) == 2 * Pow2(BitLength(v / 2) - 1);
    } else {
      assert BitLength(v / 2) == 0;
    }
  }

  lemma {:induction false} Pow2Monotone(a: nat, b: nat)
    requires a <= b
    ensures Pow2(a) <= Pow2(b)
    decreases b
  {
    if a < b {
      Pow2Monotone(a, b - 1);
    }
  }

  lemma Pow2Plus8(m: nat)
    ensures Pow2(m + 7) == 128 * Pow2(m) && Pow2(m + 8) == 256 * Pow2(m)
  {
    assert Pow2(m + 8) == 2 * Pow2(m + 7) && Pow2(m + 7) == 2 * Pow2(m + 6);
    assert Pow2(m + 6) == 2 * Pow2(m + 5) && Pow2(m + 5) == 2 * Pow2(m + 4);
    assert Pow2(m + 4) == 2 * Pow2(m + 3) && Pow2(m + 3) == 2 * Pow2(m + 2);
    assert Pow2(m + 2) == 2 * Pow2(m + 1) && Pow2(m + 1) == 2 * Pow2(m);
  }

  /** The power of two that a value of 128 or more is divided by. */
  function Shift(v: nat): (m: nat)
    requires v >= SUB_COUNT
    ensures 128 * Pow2(m) <= v < 256 * Pow2(m)
  {
    BitLengthBounds(v);
    assert BitLength(v) >= 8 by {
      if BitLength(v) < 8 {
        Pow2Monotone(BitLength(v), 7);
        Pow2Plus8(0);
      }
    }
    Pow2Plus8(BitLength(v) - 8);
    BitLength(v) - 8
  }

  lemma QuotientIn(v: nat, p: nat, lo: nat, hi: nat)
    requires p > 0 && lo * p <= v < hi * p
    ensures lo <= v / p < hi
  {
    assert v == (v / p) * p + v % p;
    Cancels(lo, v / p + 1, p);
    Cancels(v / p, hi, p);
  }

  lemma Cancels(a: nat, b: nat, p: nat)
    ensures a * p < b * p ==> a < b
  {
    if b <= a { Scales(b, a, p); }
  }

  lemma Scales(a: nat, b: nat, p: nat)
    requires a <= b
    ensures a * p <= b * p
  {
  }

  function BucketIndex(us: int): (i: nat)
    ensures us >= SUB_COUNT ==> i >= SUB_COUNT
    ensures 0 <= us < SUB_COUNT ==> i == us
  {
    var v: nat := if us < 0 then 0 else us;
    if v < SUB_COUNT then v else
    var m := Shift(v);
    QuotientIn(v, Pow2(m), 128, 256);
    (m + 1) * SUB_COUNT + (v / Pow2(m) - SUB_COUNT)
  }

  function BucketLower(i: nat): nat {
    if i < SUB_COUNT then i else
    (i % SUB_COUNT + SUB_COUNT) * Pow2(i / SUB_COUNT - 1)
  }

  /** The shift is determined by the range the value falls in. */
  lemma ShiftIs(v: nat, m: nat)
    requires v >= SUB_COUNT && 128 * Pow2(m) <= v < 256 * Pow2(m)
    ensures Shift(v) == m
  {
    var s := Shift(v);
    if s < m {
      Pow2Monotone(s + 1, m);
    } else if m < s {
      Pow2Monotone(m + 1, s);
    }
  }

  /** The parts of a bucket index: which power of two, and which sub-bucket of it. */
  lemma IndexParts(v: nat)
    requires v >= SUB_COUNT
    ensures var m, i := Shift(v), BucketIndex(v);
      && i / SUB_COUNT - 1 == m && i % SUB_COUNT + SUB_COUNT == v / Pow2(m)
      && BucketLower(i) == (v / Pow2(m)) * Pow2(m)
  {
    QuotientIn(v, Pow2(Shift(v)), 128, 256);
  }

  /** The lower bound of a bucket falls into the bucket: nothing is gained or lost by going back. */
  lemma IndexOfLower(i: nat)
    ensures BucketIndex(BucketLower(i)) == i
  {
    if i >= SUB_COUNT {
      var m, sub := i / SUB_COUNT - 1, i % SUB_COUNT + SUB_COUNT;
      var v := BucketLower(i);
      assert v == sub * Pow2(m);
      Scales(128, sub, Pow2(m));
      Scales(sub + 1, 256, Pow2(m));
      Scales(1, Pow2(m), 128);
      assert v < 256 * Pow2(m) by { assert (sub + 1) * Pow2(m) == sub * Pow2(m) + Pow2(m); }
      ShiftIs(v, m);
      ExactQuotient(sub, Pow2(m));
      IndexParts(v);
    }
  }

  lemma ExactQuotient(a: nat, p: nat)
    requires p > 0
    ensures (a * p) / p == a
  {
    QuotientIn(a * p, p, a, a + 1);
  }

  /** The bucket of a value starts at most 1/128 of its own lower bound below the value. */
  lemma LowerIsClose(v: nat)
    ensures var low := BucketLower(BucketIndex(v)); low <= v && 128 * (v - low) <= low
  {
    if v >= SUB_COUNT {
      IndexParts(v);
      var p := Pow2(Shift(v));
      assert v == (v / p) * p + v % p;
      QuotientIn(v, p, 128, 256);
      Scales(128, v / p, p);
      var low, gap := (v / p) * p, v % p;
      assert v == low + gap && gap < p && 128 * p <= low;
    }
  }

  lemma IndexMonotone(u: nat, v: nat)
    requires u <= v
    ensures BucketIndex(u) <= BucketIndex(v)
  {
    if u >= SUB_COUNT {
      var a, b := Shift(u), Shift(v);
      if b < a {
        Pow2Monotone(b + 1, a);
      }
      QuotientIn(u, Pow2(a), 128, 256);
      QuotientIn(v, Pow2(b), 128, 256);
      if a == b {
        QuotientMonotone(u, v, Pow2(a));
      }
    }
  }

  lemma QuotientMonotone(u: nat, v: nat, p: nat)
    requires p > 0 && u <= v
    ensures u / p <= v / p
  {
    assert u == (u / p) * p + u % p && v == (v / p) * p + v % p;
    Cancels(u / p, v / p + 1, p);
  }

  lemma LowerMonotone(i: nat, j: nat)
    requires i < j
    ensures BucketLower(i) < BucketLower(j)
  {
    IndexOfLower(i);
    IndexOfLower(j);
    if BucketLower(j) <= BucketLower(i) {
      IndexMonotone(BucketLower(j), BucketLower(i));
    }
  }
}
