/** The few facts about products and quotients that the models share. */
module Arithmetic {
  lemma MulMonotone(c: nat, a: nat, b: nat)
    requires a <= b
    ensures c * a <= c * b
  {
  }

  /** The only quotient and remainder. */
  lemma DivUnique(n: nat, d: nat, q: nat, r: nat)
    requires d > 0 && n == q * d + r && r < d
    ensures n / d == q && n % d == r
  {
    if n / d < q {
      MulMonotone(d, n / d + 1, q);
    } else if n / d > q {
      MulMonotone(d, q + 1, n / d);
    }
  }

  /** The dividends with a given quotient. */
  lemma DivSpan(u: nat, d: nat, q: nat)
    requires d > 0
    ensures q * d <= u < (q + 1) * d <==> u / d == q
  {
    if q * d <= u < (q + 1) * d {
      DivUnique(u, d, q, u - q * d);
    }
    assert u == d * (u / d) + u % d;
  }

  lemma DivMonotone(a: nat, b: nat, d: nat)
    requires a <= b && d > 0
    ensures a / d <= b / d
  {
    DivSpan(a, d, a / d);
    DivSpan(a, d, b / d);
    DivSpan(b, d, b / d);
  }

  function CeilDiv(n: nat, d: nat): nat
    requires d > 0
  {
    n / d + if n % d == 0 then 0 else 1
  }

  lemma CeilAbove(n: nat, d: nat, c: nat)
    requires d > 0
    ensures c < CeilDiv(n, d) <==> c * d < n
  {
    assert n == d * (n / d) + n % d;
    if c < n / d {
      MulMonotone(d, c + 1, n / d);
    } else if c > n / d {
      MulMonotone(d, n / d + 1, c);
    }
  }

  lemma Remainder(n: nat, d: nat)
    requires d > 0
    ensures d * (n / d) <= n < d * (n / d) + d
  {
  }
}
