/** Products and quotients, one elementary fact at a time. */
module Arithmetic {
  lemma {:induction false} MulMono(a: nat, b: nat, c: nat)
    requires a <= b
    ensures a * c <= b * c
    decreases c
  {
    if c > 0 {
      MulMono(a, b, c - 1);
      assert a * c == a * (c - 1) + a && b * c == b * (c - 1) + b;
    }
  }

  lemma MulStrict(a: nat, b: nat, c: nat)
    requires a < b
    ensures a * c + c <= b * c
  {
    MulMono(a + 1, b, c);
    assert (a + 1) * c == a * c + c;
  }

  lemma CancelMul(a: nat, b: nat, t: nat)
    requires a * t <= b * t && t > 0
    ensures a <= b
  {
    if a > b {
      MulStrict(b, a, t);
    }
  }

  /** The quotient times the divisor is at most the dividend, and more than the dividend minus the divisor. */
  lemma QuotientBounds(x: nat, t: nat)
    requires t > 0
    ensures x / t * t <= x < x / t * t + t
  {
  }

  lemma ExactQuotient(t: nat, p: nat)
    requires t > 0
    ensures t * p / t == p
  {
    var q := t * p / t;
    QuotientBounds(t * p, t);
    CancelMul(q, p, t);
    if q < p {
      MulStrict(q, p, t);
    }
  }

  lemma ModIsAtMost(x: nat, m: nat)
    requires m > 0
    ensures 0 <= x % m <= x
    ensures x < m ==> x % m == x
  {
    if x < m {
    } else {
      assert x % m < m <= x;
    }
  }

  lemma QuotientIs(t: nat, d: nat, q: nat, r: nat)
    requires r < d && t == q * d + r
    ensures t / d == q && t % d == r
  {
    QuotientBounds(t, d);
    var p := t / d;
    if p < q {
      MulStrict(p, q, d);
    } else if q < p {
      MulStrict(q, p, d);
    }
  }

  lemma QuotientGrows(x: nat, y: nat, t: nat)
    requires x + t <= y && t > 0
    ensures x / t < y / t
  {
    QuotientBounds(x, t);
    QuotientBounds(y, t);
    if y / t <= x / t {
      MulMono(y / t, x / t, t);
    }
  }

  lemma QuotientIsMonotone(x: nat, y: nat, t: nat)
    requires x <= y && t > 0
    ensures x / t <= y / t
  {
    QuotientBounds(x, t);
    QuotientBounds(y, t);
    if y / t < x / t {
      MulStrict(y / t, x / t, t);
    }
  }

  lemma ModIsLess(x: nat, m: nat)
    requires 0 < m <= x
    ensures x % m <= x - m
  {
    QuotientBounds(x, m);
    assert x / m >= 1;
    MulMono(1, x / m, m);
  }
}
