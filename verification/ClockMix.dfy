/**
 Numbers that the client makes from the clock: document versions and batch
 ids are the time with a counter mixed in by an exclusive or. They neither rise
 nor stay distinct when the clock does.
 */
module ClockMix {
  import opened Bitmap
  import Arithmetic

  const UINT64 := 0x1_0000_0000_0000_0000

  /** Bitwise, on natural numbers. */
  function ExclusiveOr(a: nat, b: nat): nat
    decreases a + b
  {
    if a == 0 || b == 0 then a + b
    else 2 * ExclusiveOr(a / 2, b / 2) + if a % 2 == b % 2 then 0 else 1
  }

  /** Bit by bit. */
  lemma {:induction false} ExclusiveOrBits(a: nat, b: nat, k: nat)
    ensures TestBit(ExclusiveOr(a, b), k) <==> TestBit(a, k) != TestBit(b, k)
    decreases k
  {
    if a == 0 || b == 0 {
      NoBits(k);
    } else if k > 0 {
      ExclusiveOrBits(a / 2, b / 2, k - 1);
    }
  }

  function Mixed(time: nat, counter: nat): nat { ExclusiveOr(time % UINT64, counter) % UINT64 }

  lemma SmallCounters(t: nat)
    ensures t % 4 == 2 ==> ExclusiveOr(t, 1) == t + 1 && ExclusiveOr(t, 2) == t - 2
    ensures t % 4 == 0 ==> ExclusiveOr(t, 1) == t + 1
    ensures t % 4 == 3 ==> ExclusiveOr(t, 2) == t - 2
  {
    assert ExclusiveOr(t / 2, 0) == t / 2 && ExclusiveOr(t / 4, 0) == t / 4;
    assert t % 4 == 2 ==> ExclusiveOr(t / 2, 1) == 2 * ExclusiveOr(t / 4, 0);
    assert t % 4 == 3 ==> ExclusiveOr(t / 2, 1) == 2 * ExclusiveOr(t / 4, 0);
  }

  /** The first two numbers of a clock that reads 2 modulo 4 both times: the second is smaller. */
  lemma MixedFalls(time: nat)
    requires time % 4 == 2
    ensures Mixed(time, 1) == time % UINT64 + 1 && Mixed(time, 2) == time % UINT64 - 2
  {
    hide ExclusiveOr;
    SmallCounters(time % UINT64);
    Remainders(time);
  }

  /** The first two numbers of a clock that moves on by three between them: they are equal. */
  lemma MixedCollides(time: nat)
    requires time % 4 == 0
    ensures Mixed(time, 1) == Mixed(time + 3, 2) == time % UINT64 + 1
  {
    hide ExclusiveOr;
    Remainders(time);
    SmallCounters(time % UINT64);
    SmallCounters(time % UINT64 + 3);
  }

  lemma Remainders(time: nat)
    ensures (time % UINT64) % 4 == time % 4
    ensures time % 4 == 0 ==> (time + 3) % UINT64 == time % UINT64 + 3
    ensures time % 4 == 2 ==> time % UINT64 + 1 < UINT64
  {
    var q, t := time / UINT64, time % UINT64;
    assert time == UINT64 * q + t;
    if time % 4 == 0 {
      assert t + 3 < UINT64;
      assert time + 3 == UINT64 * q + (t + 3);
    }
  }

  // ---------- When the numbers rise and are distinct ----------

  lemma HalfOf(x: nat, m: nat)
    requires m > 0
    ensures (x / 2) / m == x / (2 * m)
  {
    var h := x / 2;
    var q, r := h / m, h % m;
    assert h == m * q + r && x == 2 * (m * q + r) + x % 2;
    Regrouped(m, q);
    Arithmetic.DivisionUnique(x, 2 * m, q, 2 * r + x % 2);
  }

  lemma HalvesAgree(a: nat, b: nat, half: nat, m: nat)
    requires m > 0 && b / 2 == half && half / m == (a / 2) / m
    ensures b / (2 * m) == a / (2 * m)
  {
    HalfOf(a, m);
    HalfOf(b, m);
  }

  lemma Regrouped(m: nat, q: nat)
    ensures 2 * (m * q) == (2 * m) * q
  {
  }

  /** Mixing in a number below 2^k leaves the bits from k on alone. */
  lemma {:induction false} HighBitsStay(a: nat, c: nat, k: nat)
    requires c < PowerOfTwo(k)
    ensures ExclusiveOr(a, c) / PowerOfTwo(k) == a / PowerOfTwo(k)
  {
    hide ExclusiveOr;
    HalvesMix(a, c);
    if k != 0 {
      if a == 0 {
        Arithmetic.DivisionUnique(c, PowerOfTwo(k), 0, c);
      } else if c != 0 {
        HighBitsStay(a / 2, c / 2, k - 1);
        HalvesAgree(a, ExclusiveOr(a, c), ExclusiveOr(a / 2, c / 2), PowerOfTwo(k - 1));
      }
    }
  }

  lemma HalvesMix(a: nat, c: nat)
    ensures a == 0 ==> ExclusiveOr(a, c) == c
    ensures c == 0 ==> ExclusiveOr(a, c) == a
    ensures a != 0 && c != 0 ==> ExclusiveOr(a, c) / 2 == ExclusiveOr(a / 2, c / 2)
  {
  }

  lemma SixtyFourBits()
    ensures PowerOfTwo(64) == UINT64
  {
    assert PowerOfTwo(8) == 0x100 && PowerOfTwo(16) == 0x1_0000 && PowerOfTwo(24) == 0x100_0000;
    assert PowerOfTwo(32) == 0x1_0000_0000 && PowerOfTwo(40) == 0x100_0000_0000 && PowerOfTwo(48) == 0x1_0000_0000_0000;
    assert PowerOfTwo(56) == 0x100_0000_0000_0000;
  }

  /** A clock reading and a counter that fit 64 bits give their exclusive or. */
  lemma MixedFits(time: nat, counter: nat)
    requires time < UINT64 && counter < UINT64
    ensures Mixed(time, counter) == ExclusiveOr(time, counter)
  {
    hide ExclusiveOr;
    SixtyFourBits();
    HighBitsStay(time, counter, 64);
    ZeroQuotient(time, UINT64);
    ZeroQuotient(ExclusiveOr(time, counter), UINT64);
  }

  lemma ZeroQuotient(x: nat, d: nat)
    requires d > 0
    ensures x / d == 0 <==> x < d
    ensures x < d ==> x % d == x
  {
    if x < d {
      Arithmetic.DivisionUnique(x, d, 0, x);
    }
  }

  lemma SmallerQuotient(x: nat, y: nat, d: nat)
    requires d > 0 && x / d < y / d
    ensures x < y
  {
    if x >= y {
      Arithmetic.QuotientMonotone(y, x, d);
    }
  }

  lemma {:induction false} PowersGrow(j: nat, k: nat)
    requires j <= k
    ensures PowerOfTwo(j) <= PowerOfTwo(k)
    decreases k
  {
    if j < k {
      PowersGrow(j, k - 1);
    }
  }

  /** The numbers rise while the counter stays below 2^k and the clock moves on above bit k. */
  lemma MixedRises(s: nat, t: nat, c: nat, d: nat, k: nat)
    requires s < UINT64 && t < UINT64 && k <= 64 && c < PowerOfTwo(k) && d < PowerOfTwo(k)
    requires s / PowerOfTwo(k) < t / PowerOfTwo(k)
    ensures Mixed(s, c) < Mixed(t, d)
  {
    hide ExclusiveOr, Mixed;
    PowersGrow(k, 64);
    SixtyFourBits();
    MixedFits(s, c);
    MixedFits(t, d);
    HighBitsStay(s, c, k);
    HighBitsStay(t, d, k);
    SmallerQuotient(ExclusiveOr(s, c), ExclusiveOr(t, d), PowerOfTwo(k));
  }

  /** At one reading of the clock different counters give different numbers. */
  lemma {:induction false} CountersDiffer(a: nat, c: nat, d: nat)
    requires ExclusiveOr(a, c) == ExclusiveOr(a, d)
    ensures c == d
    decreases a + c + d
  {
    if a != 0 {
      if c != 0 && d != 0 {
        CountersDiffer(a / 2, c / 2, d / 2);
      } else if c != 0 || d != 0 {
        NotItself(a, if c != 0 then c else d);
      }
    }
  }

  lemma {:induction false} NotItself(a: nat, c: nat)
    requires c != 0
    ensures ExclusiveOr(a, c) != a
    decreases a + c
  {
    if a != 0 {
      if c / 2 != 0 {
        NotItself(a / 2, c / 2);
      }
    }
  }

  /** The clock does not go back, and where it moves on it does so above bit k. */
  ghost predicate MovesOn(clock: nat -> nat, n: nat, k: nat) {
    forall i, j :: 1 <= i < j <= n ==>
      clock(j) < UINT64 && (clock(i) == clock(j) || clock(i) / PowerOfTwo(k) < clock(j) / PowerOfTwo(k))
  }

  /**
   The numbers of the first n calls are distinct when the clock, wherever it moves on
   between two of them, moves on above all bits of the counter.
   */
  lemma MixedDistinct(clock: nat -> nat, n: nat, k: nat, i: nat, j: nat)
    requires k <= 64 && n < PowerOfTwo(k) && MovesOn(clock, n, k) && 1 <= i < j <= n
    ensures Mixed(clock(i), i) != Mixed(clock(j), j)
  {
    hide ExclusiveOr, Mixed;
    assert clock(j) < UINT64 && (clock(i) == clock(j) || clock(i) / PowerOfTwo(k) < clock(j) / PowerOfTwo(k));
    PowersGrow(k, 64);
    SixtyFourBits();
    if clock(i) == clock(j) {
      MixedFits(clock(i), i);
      MixedFits(clock(j), j);
      if Mixed(clock(i), i) == Mixed(clock(j), j) {
        CountersDiffer(clock(i), i, j);
      }
    } else {
      SmallerQuotient(clock(i), clock(j), PowerOfTwo(k));
      MixedRises(clock(i), clock(j), i, j, k);
    }
  }

  lemma MixedAscends(clock: nat -> nat, n: nat, k: nat, i: nat, j: nat)
    requires k <= 64 && n < PowerOfTwo(k) && MovesOn(clock, n, k) && 1 <= i < j <= n && clock(i) != clock(j)
    ensures Mixed(clock(i), i) < Mixed(clock(j), j)
  {
    hide Mixed;
    assert clock(j) < UINT64 && (clock(i) == clock(j) || clock(i) / PowerOfTwo(k) < clock(j) / PowerOfTwo(k));
    SmallerQuotient(clock(i), clock(j), PowerOfTwo(k));
    MixedRises(clock(i), clock(j), i, j, k);
  }

  /** A clock that has reached 2^k gives no zero. */
  lemma MixedNotZero(time: nat, counter: nat, k: nat)
    requires time < UINT64 && k <= 64 && counter < PowerOfTwo(k) <= time
    ensures Mixed(time, counter) != 0
  {
    hide ExclusiveOr, Mixed;
    PowersGrow(k, 64);
    SixtyFourBits();
    MixedFits(time, counter);
    HighBitsStay(time, counter, k);
    Arithmetic.QuotientMonotone(PowerOfTwo(k), time, PowerOfTwo(k));
  }

  /** The reading of a clock that stands `m` apart from call to call. */
  function SteadyReading(m: nat, i: nat): (t: nat)
    ensures t == i * m
  {
    Arithmetic.NonNegative(m, i);
    i * m
  }

  function SteadyClock(k: nat): nat -> nat { (i: nat) => SteadyReading(PowerOfTwo(k), i) }

  /** A clock whose readings are 2^k apart moves on as it should. */
  lemma SteadyClockMovesOn(k: nat, n: nat)
    requires n * PowerOfTwo(k) < UINT64
    ensures MovesOn(SteadyClock(k), n, k)
    ensures forall i, j :: 1 <= i < j <= n ==> SteadyClock(k)(i) != SteadyClock(k)(j)
  {
    var m := PowerOfTwo(k);
    forall i, j: nat | 1 <= i < j <= n
      ensures SteadyReading(m, i) < SteadyReading(m, j) < UINT64
      ensures SteadyReading(m, i) / m == i && SteadyReading(m, j) / m == j
    {
      SteadyReadings(m, n, i, j);
    }
  }

  lemma SteadyReadings(m: nat, n: nat, i: nat, j: nat)
    requires m > 0 && n * m < UINT64 && i < j <= n
    ensures SteadyReading(m, i) < SteadyReading(m, j) < UINT64
    ensures SteadyReading(m, i) / m == i && SteadyReading(m, j) / m == j
  {
    Arithmetic.Distribute(m, j, i);
    Arithmetic.Grow(m, j - i);
    Arithmetic.ProductMonotone(m, j, n);
    Arithmetic.ExactQuotient(i, m);
    Arithmetic.ExactQuotient(j, m);
  }
}
