/** The smaller and the larger of two numbers, and facts about division. */
module Numbers {
  function Min(a: int, b: int): (m: int)
    ensures m <= a && m <= b && (m == a || m == b)
  {
    if a < b then a else b
  }

  function Max(a: int, b: int): (m: int)
    ensures m >= a && m >= b && (m == a || m == b)
  {
    if a > b then a else b
  }

  lemma DivUnique(x: nat, n: nat, q: nat, r: nat)
    requires n > 0 && r < n && x == q * n + r
    ensures x / n == q && x % n == r
  {
    assert x == (x / n) * n + x % n;
    MulCancels(x / n, q + 1, n);
    MulCancels(q, x / n + 1, n);
  }

  lemma MulCancels(a: nat, b: nat, n: nat)
    ensures a * n < b * n ==> a < b
  {
    if b <= a { MulMonotone(b, a, n); }
  }

  lemma MulMonotone(a: nat, b: nat, n: nat)
    requires a <= b
    ensures a * n <= b * n
  {
  }

  lemma DivideTwice(n: nat, a: nat, b: nat)
    requires a > 0 && b > 0
    ensures a * b > 0 && n / a / b == n / (a * b)
  {
    var m, s := n / a, n % a;
    Dividing(n, a, m, s);
    Dividing(m, b, m / b, m % b);
    RegroupProduct(n, a, b, m / b, m % b, s);
    MulMonotone(m % b, b - 1, a);
    DivUnique(n, a * b, m / b, m % b * a + s);
  }

  lemma Dividing(n: nat, d: nat, q: nat, r: nat)
    requires d > 0 && q == n / d && r == n % d
    ensures n == q * d + r && r < d
  {
  }

  lemma RegroupProduct(n: nat, a: nat, b: nat, q: nat, r: nat, s: nat)
    requires n == (q * b + r) * a + s
    ensures n == q * (a * b) + (r * a + s)
  {
  }
}
