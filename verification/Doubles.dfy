/**
 What the bits of a double stand for: the laws of IEEE 754 binary64, which
 leave no choice, and the bits of the integers up to 2^53.
 */
module Doubles {
  import Arithmetic
  import Bitmap
  import opened Predicates
  import opened Table

  const SIGN_BIT := 0x8000_0000_0000_0000

  /** The bits from which on a positive double is infinite or no number. */
  const INFINITY := 0x7FF0_0000_0000_0000

  const ONE := 0x3FF0_0000_0000_0000

  /** Adding one to the exponent field of a normal number doubles it. */
  ghost predicate ExponentDoubles(f: nat -> real) {
    forall raw: nat :: FRACTION <= raw < INFINITY - FRACTION ==> f(raw + FRACTION) == 2.0 * f(raw)
  }

  /** Below the least normal exponent's successor, and within every exponent, the numbers are evenly spaced. */
  predicate SameSpacing(raw: nat) { raw + 2 <= 2 * FRACTION || raw / FRACTION == (raw + 1) / FRACTION }

  ghost predicate EvenlySpaced(f: nat -> real) {
    forall raw: nat :: raw + 2 < INFINITY && SameSpacing(raw) ==> f(raw + 2) - f(raw + 1) == f(raw + 1) - f(raw)
  }

  ghost predicate SignNegates(f: nat -> real) {
    forall raw: nat :: raw < INFINITY ==> f(raw + SIGN_BIT) == -f(raw)
  }

  /** The laws of the format. */
  ghost predicate ReadsDoubles(f: nat -> real) {
    f(ONE) == 1.0 && ExponentDoubles(f) && EvenlySpaced(f) && SignNegates(f)
  }

  lemma PowerStep(k: int)
    ensures PowerOfTwo(k + 1) == 2.0 * PowerOfTwo(k)
  {
  }

  lemma PowerOfZero()
    ensures PowerOfTwo(0) == 1.0
  {
  }

  lemma {:induction false} PowersMeet(j: nat, k: int)
    ensures Bitmap.PowerOfTwo(j) as real * PowerOfTwo(k) == PowerOfTwo(j + k)
  {
    if j != 0 {
      PowersMeet(j - 1, k + 1);
      PowerStep(k);
    }
  }

  lemma FractionPower()
    ensures Bitmap.PowerOfTwo(52) == FRACTION
  {
    assert Bitmap.PowerOfTwo(13) == 0x2000 && Bitmap.PowerOfTwo(26) == 0x400_0000;
    assert Bitmap.PowerOfTwo(39) == 0x80_0000_0000;
  }

  /** A finite positive double by its two fields. */
  lemma DoubleOfFields(e: nat, j: nat)
    requires e < 2047 && j < FRACTION
    ensures Double(e * FRACTION + j) ==
            if e == 0 then j as real * PowerOfTwo(-1074) else (FRACTION + j) as real * PowerOfTwo(e - 1075)
  {
    hide PowerOfTwo;
    Arithmetic.DivisionUnique(e * FRACTION + j, FRACTION, e, j);
  }

  lemma Fields(raw: nat)
    requires raw < INFINITY
    ensures raw == raw / FRACTION * FRACTION + raw % FRACTION && raw / FRACTION < 2047 && raw % FRACTION < FRACTION
  {
  }

  lemma OneIsOne()
    ensures Double(ONE) == 1.0
  {
    hide PowerOfTwo;
    DoubleOfFields(1023, 0);
    FractionPower();
    PowersMeet(52, -52);
    PowerOfZero();
  }

  lemma NextExponent(raw: nat)
    requires FRACTION <= raw < INFINITY - FRACTION
    ensures Double(raw + FRACTION) == 2.0 * Double(raw)
  {
    hide PowerOfTwo, Double;
    var e, j := raw / FRACTION, raw % FRACTION;
    Fields(raw);
    DoubleOfFields(e, j);
    DoubleOfFields(e + 1, j);
    PowerStep(e - 1075);
    assert raw + FRACTION == (e + 1) * FRACTION + j;
  }

  /** The distance to the next double. */
  function Gap(e: nat): (g: real) { PowerOfTwo(if e == 0 then -1074 else e - 1075) }

  lemma NextDouble(raw: nat)
    requires raw + 1 < INFINITY
    ensures Double(raw + 1) == Double(raw) + Gap(raw / FRACTION)
  {
    hide PowerOfTwo, Double;
    var e, j := raw / FRACTION, raw % FRACTION;
    Fields(raw);
    DoubleOfFields(e, j);
    if j + 1 < FRACTION {
      DoubleOfFields(e, j + 1);
      Distributed(j as real, PowerOfTwo(-1074));
      Distributed((FRACTION + j) as real, PowerOfTwo(e - 1075));
    } else {
      assert raw + 1 == (e + 1) * FRACTION + 0;
      DoubleOfFields(e + 1, 0);
      PowerStep(e - 1075);
      Distributed(j as real, PowerOfTwo(-1074));
      Distributed((FRACTION + j) as real, PowerOfTwo(e - 1075));
    }
  }

  lemma Distributed(x: real, p: real)
    ensures (x + 1.0) * p == x * p + p
  {
  }

  lemma SignedDouble(raw: nat)
    requires raw < INFINITY
    ensures Double(raw + SIGN_BIT) == -Double(raw)
  {
    hide PowerOfTwo;
    SignedFields(raw);
    var e, j := raw / FRACTION, raw % FRACTION;
    Negated(j as real, PowerOfTwo(-1074));
    Negated((FRACTION + j) as real, PowerOfTwo(e - 1075));
  }

  lemma SignedFields(raw: nat)
    requires raw < INFINITY
    ensures Exponent(raw + SIGN_BIT) == Exponent(raw) == raw / FRACTION < 2047
    ensures (raw + SIGN_BIT) % FRACTION == raw % FRACTION
  {
    Fields(raw);
    Arithmetic.DivisionUnique(raw + SIGN_BIT, FRACTION, raw / FRACTION + 2048, raw % FRACTION);
  }

  lemma Negated(x: real, p: real)
    ensures -1.0 * x * p == -(1.0 * x * p)
  {
  }

  lemma DoubleIsSpaced()
    ensures EvenlySpaced(Double)
  {
    hide Double, Gap;
    forall raw: nat | raw + 2 < INFINITY && SameSpacing(raw)
      ensures Double(raw + 2) - Double(raw + 1) == Double(raw + 1) - Double(raw)
    {
      NextDouble(raw);
      NextDouble(raw + 1);
      SameGap(raw);
    }
  }

  lemma SameGap(raw: nat)
    requires SameSpacing(raw)
    ensures Gap(raw / FRACTION) == Gap((raw + 1) / FRACTION)
  {
    hide PowerOfTwo;
  }

  lemma DoubleReads()
    ensures ReadsDoubles(Double)
  {
    hide Double, EvenlySpaced;
    OneIsOne();
    DoubleIsSpaced();
    forall raw: nat | FRACTION <= raw < INFINITY - FRACTION
      ensures Double(raw + FRACTION) == 2.0 * Double(raw)
    {
      NextExponent(raw);
    }
    forall raw: nat | raw < INFINITY
      ensures Double(raw + SIGN_BIT) == -Double(raw)
    {
      SignedDouble(raw);
    }
  }

  /** Up to the second normal exponent the numbers are the multiples of the least one. */
  lemma {:induction false} LowNumbers(f: nat -> real, raw: nat)
    requires EvenlySpaced(f) && raw <= 2 * FRACTION
    ensures f(raw) == f(0) + raw as real * (f(1) - f(0))
  {
    hide EvenlySpaced;
    if raw == 0 {
      assert raw as real == 0.0;
    } else if raw == 1 {
      assert raw as real == 1.0;
    } else {
      LowNumbers(f, raw - 1);
      LowNumbers(f, raw - 2);
      SpacedAt(f, raw - 2);
      Extrapolate(f(0), f(1) - f(0), (raw - 2) as real, f(raw - 2), f(raw - 1), f(raw));
    }
  }

  lemma SpacedAt(f: nat -> real, raw: nat)
    requires EvenlySpaced(f) && raw + 2 <= 2 * FRACTION
    ensures f(raw + 2) - f(raw + 1) == f(raw + 1) - f(raw)
  {
  }

  lemma Extrapolate(start: real, step: real, x: real, a: real, b: real, c: real)
    requires a == start + x * step && b == start + (x + 1.0) * step && c - b == b - a
    ensures c == start + (x + 2.0) * step
  {
    Distributed(x, step);
    Distributed(x + 1.0, step);
  }

  lemma LowMultiples(f: nat -> real, raw: nat)
    requires EvenlySpaced(f) && ExponentDoubles(f) && raw <= 2 * FRACTION
    ensures f(raw) == raw as real * f(1)
  {
    hide EvenlySpaced, ExponentDoubles;
    LowNumbers(f, raw);
    LowNumbers(f, FRACTION);
    LowNumbers(f, 2 * FRACTION);
    NextAt(f, FRACTION);
  }

  lemma {:induction false} HigherNumbers(f: nat -> real, raw: nat, m: nat)
    requires ExponentDoubles(f) && FRACTION <= raw < 2 * FRACTION && m <= 2045
    ensures f(raw + m * FRACTION) == Bitmap.PowerOfTwo(m) as real * f(raw)
  {
    hide ExponentDoubles;
    if m != 0 {
      HigherNumbers(f, raw, m - 1);
      NextAt(f, raw + (m - 1) * FRACTION);
      Twice(Bitmap.PowerOfTwo(m - 1) as real, f(raw));
    }
  }

  lemma NextAt(f: nat -> real, raw: nat)
    requires ExponentDoubles(f) && FRACTION <= raw < INFINITY - FRACTION
    ensures f(raw + FRACTION) == 2.0 * f(raw)
  {
  }

  lemma Twice(p: real, x: real)
    ensures (2.0 * p) * x == 2.0 * (p * x)
  {
  }

  lemma LeastNumber(f: nat -> real)
    requires ReadsDoubles(f)
    ensures (Bitmap.PowerOfTwo(1022) as real * FRACTION as real) * f(1) == 1.0
  {
    hide Bitmap.PowerOfTwo, ExponentDoubles, EvenlySpaced, SignNegates;
    LowMultiples(f, FRACTION);
    HigherNumbers(f, FRACTION, 1022);
    assert FRACTION + 1022 * FRACTION == ONE;
    Regrouped(Bitmap.PowerOfTwo(1022) as real, FRACTION as real, f(1));
  }

  lemma Regrouped(p: real, x: real, y: real)
    ensures p * (x * y) == (p * x) * y
  {
  }

  lemma SameFactor(x: real, a: real, b: real)
    requires x * a == 1.0 && x * b == 1.0
    ensures a == b
  {
    assert a == (x * b) * a == (x * a) * b == b;
  }

  lemma SameLeast(f: nat -> real, g: nat -> real)
    requires ReadsDoubles(f) && ReadsDoubles(g)
    ensures f(1) == g(1)
  {
    hide ReadsDoubles, Bitmap.PowerOfTwo;
    LeastNumber(f);
    LeastNumber(g);
    SameFactor(Bitmap.PowerOfTwo(1022) as real * FRACTION as real, f(1), g(1));
  }

  lemma SamePositive(f: nat -> real, g: nat -> real, raw: nat)
    requires ReadsDoubles(f) && ReadsDoubles(g) && raw < INFINITY
    ensures f(raw) == g(raw)
  {
    hide EvenlySpaced, ExponentDoubles, SignNegates;
    SameLeast(f, g);
    if raw < FRACTION {
      LowMultiples(f, raw);
      LowMultiples(g, raw);
    } else {
      var m := raw / FRACTION - 1;
      var r := raw - m * FRACTION;
      LowMultiples(f, r);
      LowMultiples(g, r);
      HigherNumbers(f, r, m);
      HigherNumbers(g, r, m);
    }
  }

  ghost predicate LikeDouble(f: nat -> real, raw: nat) {
    f(raw) == Double(raw) && f(raw + SIGN_BIT) == Double(raw + SIGN_BIT)
  }

  /** Exactly one function obeys the laws of the format, and that is `Double`. */
  lemma OnlyDoubleReads(f: nat -> real)
    ensures ReadsDoubles(Double)
    ensures ReadsDoubles(f) ==> forall raw: nat :: raw < INFINITY ==> LikeDouble(f, raw)
  {
    hide Double, EvenlySpaced, ExponentDoubles;
    DoubleReads();
    if ReadsDoubles(f) {
      forall raw: nat | raw < INFINITY
        ensures LikeDouble(f, raw)
      {
        SamePositive(f, Double, raw);
      }
    }
  }

  /** The number of the highest bit of `n`. */
  function Log2(n: nat): (k: nat)
    requires n > 0
    ensures Bitmap.PowerOfTwo(k) <= n < 2 * Bitmap.PowerOfTwo(k)
  {
    if n == 1 then 0 else 1 + Log2(n / 2)
  }

  /** The bits of an integer of at most 53 binary digits, which a double holds exactly. */
  function IntegerBits(n: int): (raw: nat) {
    if n == 0 then 0 else if n < 0 then SIGN_BIT + PositiveBits(-n) else PositiveBits(n)
  }

  /** The number of the highest bit, biased, and behind it what the others add to that bit. */
  function PositiveBits(n: nat): (raw: nat)
    requires n > 0
  {
    var k := Log2(n);
    (1023 + k) * FRACTION + (n - Bitmap.PowerOfTwo(k)) * FRACTION / Bitmap.PowerOfTwo(k)
  }

  lemma {:induction false} PowerSum(k: nat, j: nat)
    ensures Bitmap.PowerOfTwo(k + j) == Bitmap.PowerOfTwo(k) * Bitmap.PowerOfTwo(j)
  {
    if k != 0 {
      PowerSum(k - 1, j);
      Arithmetic.Associate(2, Bitmap.PowerOfTwo(k - 1), Bitmap.PowerOfTwo(j));
    }
  }

  lemma {:induction false} PowerMonotone(j: nat, k: nat)
    requires j <= k
    ensures Bitmap.PowerOfTwo(j) <= Bitmap.PowerOfTwo(k)
  {
    if j < k {
      PowerMonotone(j, k - 1);
    }
  }

  const LIMIT := 0x20_0000_0000_0000

  lemma HighestBit(n: nat)
    requires 0 < n <= LIMIT
    ensures Log2(n) <= 52 || (Log2(n) == 53 && n == LIMIT == Bitmap.PowerOfTwo(53))
  {
    hide Bitmap.PowerOfTwo, Log2;
    var k := Log2(n);
    FractionPower();
    PowerSum(1, 52);
    PowerSum(1, 53);
    assert Bitmap.PowerOfTwo(1) == 2 by { PowerOfOne(); }
    if k >= 54 {
      PowerMonotone(54, k);
    }
  }

  lemma PowerOfOne()
    ensures Bitmap.PowerOfTwo(1) == 2
  {
  }

  /** The exponent and the fraction of a positive integer. */
  lemma BitsOfPositive(n: nat) returns (k: nat, j: nat)
    requires 0 < n <= LIMIT
    ensures k <= 53 && j < FRACTION && PositiveBits(n) == (1023 + k) * FRACTION + j
    ensures (FRACTION + j) * Bitmap.PowerOfTwo(k) == n * FRACTION
  {
    hide Bitmap.PowerOfTwo, Log2;
    k := Log2(n);
    FractionPower();
    HighestBit(n);
    var p := Bitmap.PowerOfTwo(k);
    if k <= 52 {
      PowerSum(k, 52 - k);
      j := Aligned(n, p, Bitmap.PowerOfTwo(52 - k));
    } else {
      j := 0;
      assert 0 * FRACTION / p == 0;
    }
  }

  /** The bits behind the highest one, moved to the top of the fraction. */
  lemma Aligned(n: nat, p: nat, d: nat) returns (j: nat)
    requires 0 < p <= n < 2 * p && p * d == FRACTION
    ensures j < FRACTION && (n - p) * FRACTION / p == j && (FRACTION + j) * p == n * FRACTION
  {
    var m := n - p;
    j := m * d;
    assert m * FRACTION == j * p by {
      assert m * (p * d) == (m * d) * p;
    }
    Arithmetic.ExactQuotient(j, p);
    assert d > 0;
    assert m * d < p * d by {
      Arithmetic.Distribute(d, p, m);
      Arithmetic.Grow(d, p - m);
    }
    assert (FRACTION + j) * p == FRACTION * p + m * FRACTION;
  }

  lemma Unscaled(x: real, p: real, q: real, n: real)
    requires p == FRACTION as real * q && x * p == n * FRACTION as real
    ensures x * q == n
  {
    assert x * p == FRACTION as real * (x * q);
  }

  /** `shift` is `k - 52`. */
  lemma ShiftedPower(k: nat, shift: int)
    requires shift + 52 == k
    ensures FRACTION as real * PowerOfTwo(shift) == Bitmap.PowerOfTwo(k) as real
  {
    hide PowerOfTwo, Bitmap.PowerOfTwo;
    FractionPower();
    PowersMeet(52, shift);
    PowersMeet(k, 0);
    PowerOfZero();
  }

  lemma PositiveInteger(n: nat)
    requires 0 < n <= LIMIT
    ensures PositiveBits(n) < INFINITY && Double(PositiveBits(n)) == n as real
  {
    hide Double, PositiveBits, PowerOfTwo, Bitmap.PowerOfTwo;
    var k, j := BitsOfPositive(n);
    DoubleOfFields(k + 1023, j);
    var e: int := k + 1023;
    ShiftedPower(k, e - 1075);
    ProductAsReal(FRACTION + j, Bitmap.PowerOfTwo(k), n * FRACTION);
    Unscaled((FRACTION + j) as real, Bitmap.PowerOfTwo(k) as real, PowerOfTwo(e - 1075), n as real);
  }

  lemma ProductAsReal(a: int, b: int, c: int)
    requires a * b == c
    ensures a as real * b as real == c as real
  {
  }

  /** The bits of every integer up to 2^53, with either sign, stand for that integer. */
  lemma IntegerIsExact(n: int)
    requires -LIMIT <= n <= LIMIT
    ensures Double(IntegerBits(n)) == n as real
    ensures Exponent(IntegerBits(n)) != 2047
  {
    hide Double, PositiveBits;
    if n == 0 {
      DoubleOfFields(0, 0);
    } else {
      var m := if n < 0 then -n else n;
      PositiveInteger(m);
      SignedDouble(PositiveBits(m));
      FiniteBits(PositiveBits(m));
    }
  }

  lemma FiniteBits(raw: nat)
    requires raw < INFINITY
    ensures Exponent(raw) != 2047 && Exponent(raw + SIGN_BIT) != 2047
  {
  }

  /** The bits of an integer in a column of one of these types: two's complement, 0 or 1, or those of the double. */
  function BitsOfInteger(t: FieldType, n: int): (raw: nat)
    requires Holds(t, n)
  {
    if t.Float64? then IntegerBits(n)
    else if n >= 0 then n
    else if t.Int64? then n + 0x1_0000_0000_0000_0000
    else n + 0x1_0000_0000
  }

  /** The integers that a column of type `t` can hold exactly. */
  predicate Holds(t: FieldType, n: int) {
    match t
    case Int32 => -0x8000_0000 <= n < 0x8000_0000
    case Int64 => -0x8000_0000_0000_0000 <= n < 0x8000_0000_0000_0000
    case Float64 => -LIMIT <= n <= LIMIT
    case Bool => 0 <= n <= 1
    case _ => false
  }

  /** Whatever the column, the bits of an integer compare like the integer. */
  lemma IntegersCompare(t: FieldType, n: int, op: CompareOp, c: real)
    requires Holds(t, n)
    ensures Satisfies(Fixed(BitsOfInteger(t, n)), t, op, c) <==> CompareReal(n as real, c, op)
  {
    hide Double, IntegerBits;
    if t.Float64? {
      IntegerIsExact(n);
    }
  }

  /** Nulls and texts compare with nothing, and every bool other than 0 is 1. */
  lemma OthersCompare(t: FieldType, v: Value, raw: nat, op: CompareOp, c: real)
    ensures !v.Fixed? || IsVarlen(t) ==> !Satisfies(v, t, op, c)
    ensures Satisfies(Fixed(raw), Bool, op, c) <==> CompareReal(if raw == 0 then 0.0 else 1.0, c, op)
  {
  }
}
