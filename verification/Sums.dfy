/** Sums over sequences, and how they change when one element does. */
module Sums {
  function Sum<T>(f: T -> nat, xs: seq<T>): nat {
    if xs == [] then 0 else f(xs[0]) + Sum(f, xs[1..])
  }

  function Itself(n: nat): nat { n }

  function SumOf(ns: seq<nat>): nat { Sum(Itself, ns) }

  lemma {:induction false} SumUpdate<T>(f: T -> nat, xs: seq<T>, i: nat, x: T)
    requires i < |xs|
    ensures Sum(f, xs[i := x]) + f(xs[i]) == Sum(f, xs) + f(x)
  {
    if i == 0 {
      assert xs[i := x][1..] == xs[1..];
    } else {
      SumUpdate(f, xs[1..], i - 1, x);
      assert xs[i := x][1..] == xs[1..][i - 1 := x];
    }
  }

  lemma {:induction false} SumAppend<T>(f: T -> nat, xs: seq<T>, ys: seq<T>)
    ensures Sum(f, xs + ys) == Sum(f, xs) + Sum(f, ys)
  {
    if xs == [] {
      assert xs + ys == ys;
    } else {
      SumAppend(f, xs[1..], ys);
      assert (xs + ys)[1..] == xs[1..] + ys;
    }
  }

  lemma {:induction false} SumPointwise<T>(f: T -> nat, g: T -> nat, xs: seq<T>)
    requires forall x | x in xs :: f(x) == g(x)
    ensures Sum(f, xs) == Sum(g, xs)
  {
    if xs != [] {
      SumPointwise(f, g, xs[1..]);
    }
  }

  lemma {:induction false} SumAtMost<T>(f: T -> nat, g: T -> nat, xs: seq<T>)
    requires forall x | x in xs :: f(x) <= g(x)
    ensures Sum(f, xs) <= Sum(g, xs)
  {
    if xs != [] {
      SumAtMost(f, g, xs[1..]);
    }
  }

  /** The first element of `xs`, found and taken out of a permutation of it. */
  lemma MatchFirst<T>(xs: seq<T>, ys: seq<T>) returns (j: nat)
    requires xs != [] && multiset(xs) == multiset(ys)
    ensures j < |ys| && ys[j] == xs[0] && multiset(xs[1..]) == multiset(ys[..j] + ys[j + 1..])
  {
    assert xs[0] in multiset(ys);
    j :| 0 <= j < |ys| && ys[j] == xs[0];
    assert xs == [xs[0]] + xs[1..];
    assert ys == ys[..j] + [ys[j]] + ys[j + 1..];
    assert multiset(xs[1..]) == multiset(xs) - multiset{xs[0]};
    assert multiset(ys[..j] + ys[j + 1..]) == multiset(ys) - multiset{ys[j]};
  }

  /** A sum does not depend on the order of the elements. */
  lemma {:induction false} SumOfPermutation<T>(f: T -> nat, xs: seq<T>, ys: seq<T>)
    requires multiset(xs) == multiset(ys)
    ensures Sum(f, xs) == Sum(f, ys)
  {
    if xs == [] {
      assert |multiset(ys)| == |ys|;
    } else {
      var j := MatchFirst(xs, ys);
      var before, after := ys[..j], ys[j + 1..];
      SumOfPermutation(f, xs[1..], before + after);
      SumAppend(f, before, [ys[j]] + after);
      SumAppend(f, before, after);
      assert ys == before + ([ys[j]] + after);
      assert ([ys[j]] + after)[1..] == after;
    }
  }

  function One<T>(p: T -> bool): T -> nat { (x: T) => if p(x) then 1 else 0 }

  /** How many of the elements have a property. */
  function Count<T>(p: T -> bool, xs: seq<T>): nat { Sum(One(p), xs) }

  lemma CountOne<T>(p: T -> bool, x: T)
    ensures Count(p, [x]) == if p(x) then 1 else 0
  {
    assert [x][1..] == [] && Sum(One(p), [x][1..]) == 0;
  }

  lemma CountAppend<T>(p: T -> bool, a: seq<T>, b: seq<T>)
    ensures Count(p, a + b) == Count(p, a) + Count(p, b)
  {
    SumAppend(One(p), a, b);
  }
}
