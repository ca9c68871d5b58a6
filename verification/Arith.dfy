// Division and remainder facts.
module Arith {
  lemma MulOrder(n: nat, a: nat, b: nat)
    requires a <= b
    ensures n * a <= n * b
  {
  }

  lemma QuotientBound(x: nat, n: nat, q: nat)
    requires n > 0 && q * n <= x
    ensures q <= x / n
  {
    assert n * (x / n + 1) == n * (x / n) + n > x;
    if x / n < q {
      MulOrder(n, x / n + 1, q);
    }
  }

  lemma DivLess(x: nat, n: nat, h: nat)
    requires n > 0 && x < h * n
    ensures x / n < h
  {
    if x / n >= h {
      MulOrder(n, h, x / n);
    }
  }

  lemma BelowNextMultiple(x: nat, n: nat, q: nat)
    requires n > 0 && x / n <= q
    ensures x < (q + 1) * n
  {
    MulOrder(n, x / n + 1, q + 1);
  }

  lemma MeanOfUnion(a: nat, m: nat, b: nat, n: nat)
    requires m > 0 && n > 0
    ensures (a + b) / (m + n) <= a / m || (a + b) / (m + n) <= b / n
  {
    var q := if a / m > b / n then a / m else b / n;
    BelowNextMultiple(a, m, q);
    BelowNextMultiple(b, n, q);
    assert (q + 1) * (m + n) == (q + 1) * m + (q + 1) * n;
    DivLess(a + b, m + n, q + 1);
  }

  lemma RemainderIs(v: nat, d: nat, q: nat, r: nat)
    requires r < d && v == q * d + r
    ensures v % d == r
  {
    var p := v / d;
    assert p * d <= v < p * d + d;
    if p < q {
      MulOrder(d, p + 1, q);
    } else if q < p {
      MulOrder(d, q + 1, p);
    }
  }

  lemma MulDistributes(x: nat, y: nat, b: nat)
    ensures (x + y) * b == x * b + y * b
  {
  }

  lemma MulAssociates(x: nat, y: nat, b: nat)
    ensures x * y * b == x * (b * y)
  {
  }

  lemma DivRemainder(v: nat, m: nat)
    requires m > 0
    ensures v == v / m * m + v % m && v % m < m
  {
  }

  /** The lowest digit in base b, and the rest. */
  lemma ModSplit(v: nat, b: nat, m: nat)
    requires b > 0 && m > 0
    ensures v % (b * m) == v / b % m * b + v % b
  {
    var u := v / b;
    var q, r, s := u / m, u % m, v % b;
    DivRemainder(v, b);
    DivRemainder(u, m);
    MulDistributes(q * m, r, b);
    MulAssociates(q, m, b);
    MulOrder(b, r + 1, m);
    MulDistributes(r, 1, b);
    assert v == q * (b * m) + (r * b + s);
    RemainderIs(v, b * m, q, r * b + s);
  }

  /** One turn too many or too few. */
  lemma CyclicIs(x: int, m: nat, r: nat)
    requires r < m && (x == r || x == r + m || x == r - m)
    ensures x % m == r
  {
    if x >= 0 {
      RemainderIs(x, m, if x == r then 0 else 1, r);
    } else {
      NegativeCyclic(x, m, r);
    }
  }

  lemma NegativeCyclic(x: int, m: nat, r: nat)
    requires r < m && x == r - m
    ensures x % m == r
  {
    var q := x / m;
    assert x == q * m + x % m && 0 <= x % m < m;
    if q >= 0 {
      MulOrder(m, 0, q);
    } else if q < -1 {
      MulOrder(m, 2, -q);
    }
  }

  lemma QuotientAtMost(x: nat, n: nat)
    requires n > 0
    ensures 0 <= x / n <= x
  {
    DivRemainder(x, n);
    MulOrder(x / n, 1, n);
  }

  lemma QuotientIs(v: nat, d: nat, q: nat, r: nat)
    requires r < d && v == q * d + r
    ensures v / d == q
  {
    var p := v / d;
    DivRemainder(v, d);
    if p < q {
      MulOrder(d, p + 1, q);
    } else if q < p {
      MulOrder(d, q + 1, p);
    }
  }

  lemma DivDiv(v: nat, b: nat, m: nat)
    requires b > 0 && m > 0
    ensures b * m > 0 && v / b / m == v / (b * m)
  {
    var u := v / b;
    var q, r, s := u / m, u % m, v % b;
    DivRemainder(v, b);
    DivRemainder(u, m);
    MulDistributes(q * m, r, b);
    MulAssociates(q, m, b);
    MulOrder(b, r + 1, m);
    MulDistributes(r, 1, b);
    assert v == q * (b * m) + (r * b + s);
    QuotientIs(v, b * m, q, r * b + s);
  }
}
