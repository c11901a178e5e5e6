/** Facts about division by a variable, each in a form small enough for the solver. */
module Arithmetic {
  lemma DivisionUnique(n: nat, d: nat, q: nat, r: nat)
    requires r < d && n == d * q + r
    ensures n % d == r && n / d == q
  {
    var q', r' := n / d, n % d;
    Cancel(d, q, r, q', r');
  }

  lemma Cancel(d: nat, q: int, r: nat, q': int, r': nat)
    requires r < d && r' < d && d * q + r == d * q' + r'
    ensures q == q' && r == r'
  {
    if q > q' {
      Distribute(d, q, q');
      Grow(d, q - q');
    } else if q < q' {
      Distribute(d, q', q);
      Grow(d, q' - q);
    }
  }

  lemma Grow(d: nat, a: int)
    requires a >= 1
    ensures d * a >= d
  {
  }

  lemma NonNegative(d: nat, a: int)
    requires a >= 0
    ensures d * a >= 0
  {
  }

  lemma Distribute(d: int, a: int, b: int)
    ensures d * (a - b) == d * a - d * b
    ensures d * (a + b) == d * a + d * b
  {
  }

  /** Dividing by 256 and then by `p` is dividing by `256 * p`. */
  lemma SplitModulus(n: nat, p: nat)
    requires p > 0
    ensures n % 256 + 256 * ((n / 256) % p) == n % (256 * p)
  {
    var a, b := n / 256, n % 256;
    var q, r := a / p, a % p;
    assert n == 256 * (p * q + r) + b;
    Associate(256, p, q);
    DivisionUnique(n, 256 * p, q, 256 * r + b);
  }

  lemma QuotientTwice(n: nat, a: nat, p: nat)
    requires a > 0 && p > 0
    ensures a * p > 0 && (n / a) / p == n / (a * p)
  {
    var m := n / a;
    TwoSteps(n, a, p, m, n % a, m / p, m % p);
  }

  lemma TwoSteps(n: nat, a: nat, p: nat, m: nat, b: nat, q: nat, r: nat)
    requires n == a * m + b && b < a && m == p * q + r && r < p
    ensures a * p > 0 && n / (a * p) == q
  {
    Distribute(a, p * q, r);
    Associate(a, p, q);
    Grow(p, a);
    Remainder(a, p, r, b);
    DivisionUnique(n, a * p, q, a * r + b);
  }

  lemma Remainder(a: nat, p: nat, r: nat, b: nat)
    requires b < a && r < p
    ensures a * r + b < a * p
  {
    Distribute(a, p, r);
    Grow(a, p - r);
  }

  lemma Associate(a: int, b: int, c: int)
    ensures a * (b * c) == (a * b) * c
  {
  }

  lemma SmallModulus(n: nat, d: nat)
    requires n < d
    ensures n % d == n
  {
  }

  lemma ProductMonotone(d: nat, a: nat, b: nat)
    requires a <= b
    ensures d * a <= d * b
  {
    Distribute(d, b, a);
    NonNegative(d, b - a);
  }

  lemma QuotientMonotone(a: nat, b: nat, d: nat)
    requires a <= b && d > 0
    ensures a / d <= b / d
  {
    var q, r, q', r' := a / d, a % d, b / d, b % d;
    if q > q' {
      Distribute(d, q, q');
      Grow(d, q - q');
    }
  }

  lemma ExactQuotient(a: nat, d: nat)
    requires d > 0
    ensures (a * d) / d == a
  {
    DivisionUnique(a * d, d, a, 0);
  }
}
