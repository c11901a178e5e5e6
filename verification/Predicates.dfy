/** Values as a query sees them, and the predicates on them. */
module Predicates {
  import opened Bytes
  import opened Table

  /** What a cell shows: a null hides whatever is stored under it. */
  datatype Value = Missing | Fixed(raw: nat) | Content(bytes: seq<byte>)

  function ValueOf(c: Cell): Value {
    match c
    case Number(valid, raw) => if valid then Fixed(raw) else Missing
    case Text(valid, bytes) => if valid then Content(bytes) else Missing
  }

  /** The bytes of a fixed-width value. */
  function Width(t: FieldType): nat {
    match t
    case Int32 => 4
    case Int64 => 8
    case Float64 => 8
    case Bool => 1
    case DictInt32 => 4
    case String => 0
    case Blob => 0
  }

  /** The number that the bits `raw` stand for: two's complement, and any nonzero bool is 1. */
  function Signed(t: FieldType, raw: nat): int {
    match t
    case Int32 => if raw < 0x8000_0000 then raw else raw - 0x1_0000_0000
    case Int64 => if raw < 0x8000_0000_0000_0000 then raw else raw - 0x1_0000_0000_0000_0000
    case Bool => if raw == 0 then 0 else 1
    case _ => raw
  }

  /** A power of two with any exponent. */
  function PowerOfTwo(k: int): (p: real)
    ensures p > 0.0
    decreases if k < 0 then -k else k
  {
    if k == 0 then 1.0 else if k > 0 then 2.0 * PowerOfTwo(k - 1) else PowerOfTwo(k + 1) / 2.0
  }

  const FRACTION := 0x10_0000_0000_0000

  /** The biased exponent of the IEEE double with the bits `raw`; 2047 stands for infinities and NaN. */
  function Exponent(raw: nat): nat { (raw / FRACTION) % 2048 }

  /** The number that the bits of a finite double stand for. */
  function Double(raw: nat): real {
    var sign := if raw < 0x8000_0000_0000_0000 then 1.0 else -1.0;
    var e, fraction := Exponent(raw), raw % FRACTION;
    if e == 0 then sign * fraction as real * PowerOfTwo(-1074)
    else sign * (FRACTION + fraction) as real * PowerOfTwo(e - 1075)
  }

  /** The number that a query sees. */
  function NumberOf(t: FieldType, raw: nat): real {
    if t.Float64? then Double(raw) else Signed(t, raw) as real
  }

  datatype CompareOp = Eq | Ne | Lt | Le | Gt | Ge

  predicate CompareReal(left: real, right: real, op: CompareOp) {
    match op
    case Eq => left == right
    case Ne => left != right
    case Lt => left < right
    case Le => left <= right
    case Gt => left > right
    case Ge => left >= right
  }

  predicate CompareInt(left: int, right: int, op: CompareOp) {
    match op
    case Eq => left == right
    case Ne => left != right
    case Lt => left < right
    case Le => left <= right
    case Gt => left > right
    case Ge => left >= right
  }

  datatype Predicate = Predicate(field: nat, op: CompareOp, value: real)

  predicate IsInteger(t: FieldType) { t.Int32? || t.Int64? || t.Bool? }

  predicate IsNumeric(t: FieldType) { IsInteger(t) || t.Float64? }

  /** The value is not an infinity or NaN, which the numbers of this model leave out. */
  predicate IsFinite(v: Value, t: FieldType) { t.Float64? && v.Fixed? ==> Exponent(v.raw) != 2047 }

  /** The exact comparison: a null, a string and a bytes value satisfy no predicate. */
  predicate Satisfies(v: Value, t: FieldType, op: CompareOp, c: real) {
    v.Fixed? && IsNumeric(t) && CompareReal(NumberOf(t, v.raw), c, op)
  }

  /** A conversion to int64_t drops the fraction. */
  function Truncate(c: real): int { if c >= 0.0 then c.Floor else -((-c).Floor) }

  const INT64_LIMIT := 0x8000_0000_0000_0000

  /** The constants that int64_t can hold. */
  predicate FitsInt64(c: real) { -9223372036854775808.0 <= c < 9223372036854775808.0 }

  /** What the machine makes of a conversion to int64_t; C++ defines it only for the constants that fit. */
  ghost predicate IsInt64Cast(cast: real -> int) {
    && (forall c :: -INT64_LIMIT <= cast(c) < INT64_LIMIT)
    && forall c :: FitsInt64(c) ==> cast(c) == Truncate(c)
  }

  lemma CastOf(cast: real -> int, c: real)
    requires IsInt64Cast(cast)
    ensures -INT64_LIMIT <= cast(c) < INT64_LIMIT && (FitsInt64(c) ==> cast(c) == Truncate(c))
  {
  }

  /** The comparison that scans of compressed segments make: integers meet the converted constant `n`. */
  predicate SatisfiesConverted(v: Value, t: FieldType, op: CompareOp, c: real, n: int) {
    v.Fixed? && IsNumeric(t) &&
    if t.Float64? then CompareReal(Double(v.raw), c, op) else CompareInt(Signed(t, v.raw), n, op)
  }

  /** The same where a mask is built for a whole column: the byte of a bool is compared as it is. */
  predicate SatisfiesByMask(v: Value, t: FieldType, op: CompareOp, c: real, n: int) {
    if v.Fixed? && t.Bool? then CompareInt(v.raw, n, op) else SatisfiesConverted(v, t, op, c, n)
  }

  /** The constants whose fraction makes no difference to the comparison. */
  predicate FractionIrrelevant(op: CompareOp, c: real) {
    || c == c.Floor as real
    || (op in {Le, Gt} && c > 0.0)
    || (op in {Lt, Ge} && c < 0.0)
  }

  lemma TruncateBounds(c: real)
    ensures c >= 0.0 ==> Truncate(c) as real <= c < (Truncate(c) + 1) as real
    ensures c < 0.0 ==> (Truncate(c) - 1) as real < c <= Truncate(c) as real
    ensures Truncate(c) as real == c <==> c == c.Floor as real
  {
    if c < 0.0 {
      var f := (-c).Floor;
      if Truncate(c) as real == c {
        FloorOfInteger(-f);
      }
      if c == c.Floor as real {
        NegatedInteger(c.Floor);
        FloorOfInteger(-c.Floor);
      }
    }
  }

  lemma FloorOfInteger(n: int)
    ensures (n as real).Floor == n
  {
  }

  lemma NegatedInteger(n: int)
    ensures -(n as real) == (-n) as real
  {
  }

  lemma IntegerCompare(x: int, n: int, c: real, op: CompareOp)
    requires FractionIrrelevant(op, c) && n == Truncate(c)
    ensures CompareReal(x as real, c, op) <==> CompareInt(x, n, op)
  {
    TruncateBounds(c);
  }

  /** The constants for which the comparison with `n` instead is right for every int64_t. */
  predicate ConversionExact(op: CompareOp, c: real, n: int) {
    if FitsInt64(c) then FractionIrrelevant(op, c)
    else if c > 0.0 then op in {Le, Gt} && n == INT64_LIMIT - 1
    else op in {Lt, Ge} && n == -INT64_LIMIT
  }

  ghost predicate AgreesOnInt64(op: CompareOp, c: real, n: int) {
    forall x: int :: -INT64_LIMIT <= x < INT64_LIMIT ==> (CompareReal(x as real, c, op) <==> CompareInt(x, n, op))
  }

  /**
   Comparing with the converted constant is right for every value of a column
   exactly when the constant fits int64_t and has no fraction, or the operator
   and its sign excuse the fraction; or when it does not fit and the machine
   happens to convert it to the end of the range that its operator needs.
   */
  lemma TruncationExact(op: CompareOp, c: real, cast: real -> int)
    requires IsInt64Cast(cast)
    ensures AgreesOnInt64(op, c, cast(c)) <==> ConversionExact(op, c, cast(c))
  {
    var n := cast(c);
    CastOf(cast, c);
    if FitsInt64(c) {
      TruncateBounds(c);
      if FractionIrrelevant(op, c) {
        forall x: int
          ensures CompareReal(x as real, c, op) <==> CompareInt(x, n, op)
        {
          IntegerCompare(x, n, c, op);
        }
      } else {
        assert !(CompareReal(n as real, c, op) <==> CompareInt(n, n, op));
      }
    } else {
      assert !ConversionExact(op, c, n) ==>
             !(CompareReal(n as real, c, op) <==> CompareInt(n, n, op)) ||
             !(CompareReal((-INT64_LIMIT) as real, c, op) <==> CompareInt(-INT64_LIMIT, n, op)) ||
             !(CompareReal((INT64_LIMIT - 1) as real, c, op) <==> CompareInt(INT64_LIMIT - 1, n, op));
    }
  }

  /** A conversion by some machine: the constants that do not fit become `n`. */
  function MachineCast(n: int): real -> int { c => if FitsInt64(c) then Truncate(c) else n }

  lemma MachineCasts(n: int)
    requires -INT64_LIMIT <= n < INT64_LIMIT
    ensures IsInt64Cast(MachineCast(n))
  {
    forall c | FitsInt64(c)
      ensures -INT64_LIMIT <= Truncate(c) < INT64_LIMIT
    {
      TruncateBounds(c);
    }
  }

  predicate SafeConstant(op: CompareOp, c: real) { FitsInt64(c) && FractionIrrelevant(op, c) }

  /** Without knowing the machine, exactly the constants that fit and whose fraction makes no difference are right. */
  lemma SafeOnEveryMachine(op: CompareOp, c: real)
    ensures (forall cast :: IsInt64Cast(cast) ==> AgreesOnInt64(op, c, cast(c))) <==> SafeConstant(op, c)
  {
    hide AgreesOnInt64, IsInt64Cast, FractionIrrelevant, Truncate;
    forall cast | IsInt64Cast(cast)
      ensures AgreesOnInt64(op, c, cast(c)) <==> ConversionExact(op, c, cast(c))
    {
      TruncationExact(op, c, cast);
    }
    MachineCasts(0);
    assert AgreesOnInt64(op, c, MachineCast(0)(c)) <==> ConversionExact(op, c, MachineCast(0)(c));
  }

  /**
   The constant 1e19 with `<`: every int64_t is smaller, but the row that holds
   what the machine makes of it is not found; where that is the least int64_t,
   as on x86, no row is.
   */
  lemma LargeConstantExample(cast: real -> int, raw: nat)
    requires IsInt64Cast(cast)
    ensures var c, n := 10000000000000000000.0, cast(10000000000000000000.0);
            && (raw < 0x1_0000_0000_0000_0000 ==> Satisfies(Fixed(raw), Int64, Lt, c))
            && (Signed(Int64, raw) == n ==> !SatisfiesConverted(Fixed(raw), Int64, Lt, c, n))
            && (n == -INT64_LIMIT && raw < 0x1_0000_0000_0000_0000 ==> !SatisfiesConverted(Fixed(raw), Int64, Lt, c, n))
  {
  }

  /** A bool byte is compared like the bool that it stands for exactly when it is 0 or 1; byte 2 with `== 1` is not. */
  lemma BoolBytesExact(raw: nat)
    ensures (forall op, n: int :: CompareInt(raw, n, op) <==> CompareInt(Signed(Bool, raw), n, op)) <==> raw <= 1
  {
    if raw > 1 {
      assert !(CompareInt(raw, 1, Eq) <==> CompareInt(Signed(Bool, raw), 1, Eq));
    }
  }

  lemma ConversionIrrelevant(v: Value, t: FieldType, op: CompareOp, c: real, n: int)
    requires t.Float64? || (FractionIrrelevant(op, c) && n == Truncate(c))
    ensures Satisfies(v, t, op, c) <==> SatisfiesConverted(v, t, op, c, n)
    ensures (t.Bool? && v.Fixed? ==> v.raw <= 1) ==> (Satisfies(v, t, op, c) <==> SatisfiesByMask(v, t, op, c, n))
  {
    hide Double;
    if v.Fixed? && !t.Float64? {
      IntegerCompare(Signed(t, v.raw), n, c, op);
    }
  }
}
