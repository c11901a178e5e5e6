/** The compiled extension's queries over a table in memory. */
module ExtensionQuery {
  import opened Bytes
  import opened Wrappers
  import opened Sequences
  import opened Table
  import opened Predicates
  import opened Lz4
  import opened Lz4Block
  import opened Lz4Batches
  import opened Views
  import opened NumberArrays
  import opened ScanSpec
  import opened ScanTable
  import opened ScanRefinement
  import opened PredicateMask
  import opened Aggregation
  import opened PythonQuery
  import opened Scanner

  // ---------- The extension's answers and the Python loops' ----------

  /** The one field that the extension reads for both `min` and `max`. */
  function ExtremeField(q: Request): nat
    requires q.min.Some? || q.max.Some?
  {
    if q.min.Some? then q.min.value else q.max.value
  }

  /** The answer of the extension. */
  ghost function Extension(preds: seq<Predicate>, types: seq<FieldType>, rows: seq<ValueRow>, q: Request): Answer
    requires Wide(rows, types) && RequestFits(q, types)
  {
    Answer(
      if q.sum.Some? then Some(Sum(Selected(preds, types, q.sum.value, rows))) else None,
      if q.min.Some? then Some(Least(Selected(preds, types, q.min.value, rows))) else None,
      if q.max.Some? then Some(Greatest(Selected(preds, types, ExtremeField(q), rows))) else None,
      if !q.count then None
      else if q.sum.None? && (q.min.Some? || q.max.Some?) then
        Some(|Selected(preds, types, ExtremeField(q), rows)|)
      else Some(Hits(preds, types, rows)))
  }

  /** The requests on which the two count and compare the same things. */
  predicate Consistent(q: Request) {
    && (q.min.Some? && q.max.Some? ==> q.min == q.max)
    && (q.count && q.sum.Some? ==> q.min.None? && q.max.None?)
  }

  ghost predicate SameAnswers(q: Request, types: seq<FieldType>)
    requires RequestFits(q, types)
  {
    forall preds: seq<Predicate>, rows: seq<ValueRow> :: Wide(rows, types) ==>
      Extension(preds, types, rows, q) == Reference(preds, types, rows, q)
  }

  /**
   The extension answers a request as the Python loops do, on every table,
   exactly when `min` and `max` name one field and a count does not come with
   both a sum and an extreme.
   */
  lemma ExtensionAgreesExactly(q: Request, types: seq<FieldType>)
    requires RequestFits(q, types)
    ensures SameAnswers(q, types) <==> Consistent(q)
  {
    if !Consistent(q) {
      if q.min.Some? && q.max.Some? && q.min != q.max {
        DifferentFields(q, types);
      } else {
        NullCounted(q, types);
      }
    }
  }

  lemma SingleRow(types: seq<FieldType>, row: ValueRow, field: nat)
    requires |row| == |types| && field < |types|
    ensures Wide([row], types) && Hits([], types, [row]) == 1
    ensures Selected([], types, field, [row]) ==
            if row[field].Fixed? then [NumberOf(types[field], row[field].raw)] else []
  {
    assert [row][..0] == [];
  }

  lemma OneNumber(x: real)
    ensures Least([x]) == Some(x) && Greatest([x]) == Some(x)
  {
    assert [x][..0] == [];
  }

  lemma ZeroAndMore(t: FieldType, u: FieldType)
    ensures NumberOf(t, 0) == 0.0 < NumberOf(u, 1)
  {
    hide PowerOfTwo;
    assert Exponent(0) == 0 && Exponent(1) == 0;
  }

  lemma DifferentFields(q: Request, types: seq<FieldType>)
    requires RequestFits(q, types) && q.min.Some? && q.max.Some? && q.min != q.max
    ensures !SameAnswers(q, types)
  {
    hide Selected, Hits, Least, Greatest, Sum, NumberOf;
    var row := seq(|types|, i => Fixed(if i == q.min.value then 0 else 1));
    SingleRow(types, row, q.min.value);
    SingleRow(types, row, q.max.value);
    ZeroAndMore(types[q.min.value], types[q.max.value]);
    OneNumber(NumberOf(types[q.min.value], 0));
    OneNumber(NumberOf(types[q.max.value], 1));
    assert Extension([], types, [row], q).max != Reference([], types, [row], q).max;
  }

  lemma NullCounted(q: Request, types: seq<FieldType>)
    requires RequestFits(q, types) && q.count && q.sum.Some? && (q.min.Some? || q.max.Some?)
    ensures !SameAnswers(q, types)
  {
    var row := seq(|types|, i => Missing);
    SingleRow(types, row, ExtremeField(q));
    assert Extension([], types, [row], q) != Reference([], types, [row], q);
  }

  // ---------- The columns that the extension works on ----------

  /** The blocks of a compressed column end where the decoder stops. */
  ghost predicate Decodable(c: ColumnView, n: nat)
    requires WellFormed(c, n)
  {
    && (c.store.Lz4Numbers? ==> RunBoundary(c.store.block, 0, Width(c.ftype) * n))
    && (c.store.Lz4Texts? ==> RunBoundary(c.store.lengthBlock, 0, 4 * n) &&
                              RunBoundary(c.store.byteBlock, 0, SumTo(Unpacked(c, n).lengths, n)))
  }

  ghost predicate SegmentDecodable(s: ScanSegment)
    requires Readable(s)
  {
    forall i :: 0 <= i < |s.columns| ==> Decodable(s.columns[i], s.rowCount)
  }

  /** A string column that never got a byte: its byte pointer is null. */
  ghost predicate Byteless(c: ColumnView, n: nat)
    requires WellFormed(c, n)
  {
    IsVarlen(c.ftype) &&
    if c.store.RawTexts? then c.store.bytes == [] else SumTo(Unpacked(c, n).lengths, n) == 0
  }

  /** `w` shows what `c` shows, without LZ4. */
  ghost predicate SameColumn(w: ColumnView, c: ColumnView, n: nat)
    requires WellFormed(c, n)
  {
    && WellFormed(w, n) && !IsLz4(w) && w.ftype == c.ftype && w.valid == c.valid
    && (forall r :: 0 <= r < n ==> ValueAt(w, n, r) == ValueAt(c, n, r))
    && (Byteless(w, n) <==> Byteless(c, n)) && (BoolColumn(c, n) ==> BoolColumn(w, n))
  }

  /** What the extension's scan shows of a value: in a compressed segment a null byte pointer makes it None. */
  ghost function SeenAt(c: ColumnView, n: nat, r: nat, compressed: bool): Value
    requires WellFormed(c, n) && r < n
  {
    if compressed && Byteless(c, n) then Missing else ValueAt(c, n, r)
  }

  ghost function SeenRow(s: ScanSegment, r: nat, compressed: bool): (row: ValueRow)
    requires Readable(s) && r < s.rowCount
    ensures |row| == |s.columns|
  {
    seq(|s.columns|, c requires 0 <= c < |s.columns| => SeenAt(s.columns[c], s.rowCount, r, compressed))
  }

  ghost function SeenRows(s: ScanSegment, compressed: bool): (rows: seq<ValueRow>)
    requires Readable(s)
    ensures |rows| == s.rowCount && forall r :: 0 <= r < s.rowCount ==> rows[r] == SeenRow(s, r, compressed)
  {
    seq(s.rowCount, r requires 0 <= r < s.rowCount => SeenRow(s, r, compressed))
  }

  method Inflate(block: seq<byte>, size: nat) returns (ok: bool, bytes: seq<byte>)
    requires RunBoundary(block, 0, size)
    ensures ok && |bytes| == size && bytes <= Literals(block, 0)
  {
    if size == 0 {
      return true, [];
    }
    var dst := new byte[size];
    ok := DecodeLz4LiteralBlock(block, dst);
    bytes := dst[..];
  }

  /** One column of BuildReadableColumns. */
  method ReadableColumn(c: ColumnView, n: nat) returns (ok: bool, w: ColumnView)
    requires WellFormed(c, n) && Decodable(c, n)
    ensures ok && SameColumn(w, c, n)
  {
    hide RunBoundary, Literals, NumberArrays.Numbers, SumTo, NumberAt;
    w, ok := c, true;
    match c.store {
      case Lz4Numbers(block) =>
        var bytes;
        ok, bytes := Inflate(block, Width(c.ftype) * n);
        PrefixNumbers(Literals(block, 0), bytes, Width(c.ftype), n);
        w := c.(store := RawNumbers(NumberArrays.Numbers(bytes, Width(c.ftype), n)));
      case Lz4Texts(lengthBlock, byteBlock) =>
        var lengthBytes, bytes;
        ok, lengthBytes := Inflate(lengthBlock, 4 * n);
        PrefixNumbers(Literals(lengthBlock, 0), lengthBytes, 4, n);
        var lengths := NumberArrays.Numbers(lengthBytes, 4, n);
        ok, bytes := Inflate(byteBlock, SumTo(lengths, n));
        w := c.(store := RawTexts(lengths, bytes));
        PrefixTexts(lengths, Literals(byteBlock, 0), bytes);
      case _ =>
    }
  }

  lemma PrefixNumbers(all: seq<byte>, bytes: seq<byte>, w: nat, n: nat)
    requires w * n == |bytes| && bytes <= all
    ensures NumberArrays.Numbers(bytes, w, n) == NumberArrays.Numbers(all, w, n)
  {
    hide NumberArrays.Numbers;
    NumbersWindow(all, w, 0, n, n);
    assert all[w * 0..w * 0 + w * n] == bytes;
    var numbers := NumberArrays.Numbers(all, w, n);
    assert numbers[0..n] == numbers;
  }

  lemma PrefixTexts(lengths: seq<nat>, all: seq<byte>, bytes: seq<byte>)
    requires SumTo(lengths, |lengths|) == |bytes| && bytes <= all
    ensures forall r :: 0 <= r < |lengths| ==> TextAt(lengths, bytes, r) == TextAt(lengths, all, r)
  {
    forall r | 0 <= r < |lengths|
      ensures TextAt(lengths, bytes, r) == TextAt(lengths, all, r)
    {
      SumToMonotone(lengths, r + 1, |lengths|);
    }
  }

  /** BuildReadableColumns: the segment with its LZ4 columns decoded. */
  method BuildReadableColumns(s: ScanSegment, ghost types: seq<FieldType>) returns (ok: bool, w: ScanSegment)
    requires Readable(s) && SegmentDecodable(s) && HasTypes(s, types)
    ensures ok && !w.compressed && w.rowCount == s.rowCount
    ensures Readable(w) && HasTypes(w, types) && FirstRows(w, w.rowCount) == FirstRows(s, s.rowCount)
    ensures SeenRows(w, s.compressed) == SeenRows(s, s.compressed)
    ensures forall i :: 0 <= i < |s.columns| && BoolColumn(s.columns[i], s.rowCount) ==> BoolColumn(w.columns[i], w.rowCount)
  {
    hide WellFormed, NullsEmpty, ValueAt, Decodable, Byteless, BoolColumn;
    var columns := [];
    ok := true;
    for i := 0 to |s.columns|
      invariant |columns| == i && ok
      invariant forall j :: 0 <= j < i ==> SameColumn(columns[j], s.columns[j], s.rowCount)
    {
      var column;
      ok, column := ReadableColumn(s.columns[i], s.rowCount);
      columns := columns + [column];
    }
    w := ScanSegment(false, columns, s.rowCount, s.stats);
    ghost var ours, theirs := FirstRows(w, w.rowCount), FirstRows(s, s.rowCount);
    forall r | 0 <= r < s.rowCount
      ensures ours[r] == theirs[r] && SeenRows(w, s.compressed)[r] == SeenRows(s, s.compressed)[r]
    {
      assert FullRow(w, r) == FullRow(s, r);
      assert SeenRow(w, r, s.compressed) == SeenRow(s, r, s.compressed);
    }
  }

  // ---------- Matching rows ----------

  /** What the parser makes of a constant: any number for a float, else an int64_t, and 0 or 1 for a bool. */
  predicate ConstantParsed(p: Predicate, types: seq<FieldType>) {
    && p.field < |types| && IsNumeric(types[p.field])
    && (!types[p.field].Float64? ==> p.value == p.value.Floor as real && FitsInt64(p.value))
    && (types[p.field].Bool? ==> p.value == 0.0 || p.value == 1.0)
  }

  predicate AllParsed(preds: seq<Predicate>, types: seq<FieldType>) {
    forall k :: 0 <= k < |preds| ==> ConstantParsed(preds[k], types)
  }

  /** The bool columns hold nothing but 0 and 1, which is what the extension stores. */
  ghost predicate BoolColumns(s: ScanSegment)
    requires Readable(s)
  {
    forall i :: 0 <= i < |s.columns| ==> BoolColumn(s.columns[i], s.rowCount)
  }

  predicate SingleEq(preds: seq<Predicate>) { |preds| == 1 && preds[0].op == Eq }

  /** The constants that int32_t can hold. */
  predicate Narrows(t: FieldType, value: real) {
    t.Int32? ==> -2147483648.0 <= value <= 2147483647.0
  }

  /** What the machine makes of a conversion to int32_t; C++ defines it only for the constants that fit. */
  ghost predicate IsCast(cast: real -> int) {
    && (forall c :: -2147483648 <= cast(c) <= 2147483647)
    && forall c :: -2147483648.0 <= c <= 2147483647.0 ==> cast(c) == Truncate(c)
  }

  /** The constant that the fast path compares with: it is converted for the int32 columns of plain segments. */
  function Converted(t: FieldType, value: real, compressed: bool, cast: real -> int): real {
    if t.Int32? && !compressed then cast(value) as real else value
  }

  lemma ConvertedFits(t: FieldType, value: real, compressed: bool, cast: real -> int)
    requires IsCast(cast) && Narrows(t, value) && (!t.Float64? ==> value == value.Floor as real)
    ensures Converted(t, value, compressed, cast) == value
  {
    TruncateBounds(value);
  }

  /** MatchSingleEq and MatchSingleEqCompressed: equality with the constant of the only predicate. */
  method MatchSingleEq(c: ColumnView, n: nat, p: Predicate, r: nat, compressed: bool, cast: real -> int) returns (m: bool)
    requires WellFormed(c, n) && !IsLz4(c) && r < n && IsNumeric(c.ftype) && p.op == Eq
    requires !c.ftype.Float64? ==> p.value == p.value.Floor as real
    requires c.ftype.Bool? ==> p.value == 0.0 || p.value == 1.0
    ensures m <==> Satisfies(ValueAt(c, n, r), c.ftype, Eq, Converted(c.ftype, p.value, compressed, cast))
  {
    hide WellFormed, ValueAt, Double;
    var v := FieldValue(c, n, r);
    if !v.Fixed? {
      return false;
    }
    if compressed {
      return NumberOf(c.ftype, v.raw) == p.value;
    }
    TruncateBounds(p.value);
    match c.ftype {
      case Int32 => return Signed(c.ftype, v.raw) == cast(p.value);
      case Int64 => return Signed(c.ftype, v.raw) == Truncate(p.value);
      case Float64 => return Double(v.raw) == p.value;
      case Bool => return (v.raw != 0) == (p.value != 0.0);
    }
  }

  /** The mask of the other path: every predicate compares with the constant as an integer. */
  method MaskOf(preds: seq<Predicate>, types: seq<FieldType>, s: ScanSegment, compressed: bool) returns (mask: seq<bool>)
    requires Readable(s) && !s.compressed && HasTypes(s, types) && AllParsed(preds, types)
    requires compressed ==> BoolColumns(s)
    ensures |mask| == s.rowCount
    ensures forall r :: 0 <= r < s.rowCount ==> (mask[r] <==> Matches(preds, s, r))
  {
    hide WellFormed, ValueAt, Satisfies, SatisfiesConverted, BoolColumn;
    mask := seq(s.rowCount, i => true);
    for k := 0 to |preds|
      invariant |mask| == s.rowCount
      invariant forall r :: 0 <= r < s.rowCount ==> (mask[r] <==> Matches(preds[..k], s, r))
    {
      mask := Narrow(preds, s, k, mask, compressed);
    }
    assert preds[..|preds|] == preds;
  }

  method Narrow(preds: seq<Predicate>, s: ScanSegment, k: nat, mask: seq<bool>, compressed: bool) returns (mask': seq<bool>)
    requires Readable(s) && !s.compressed && |mask| == s.rowCount && (compressed ==> BoolColumns(s))
    requires k < |preds| && preds[k].field < |s.columns|
    requires !s.columns[preds[k].field].ftype.Float64? ==> preds[k].value == preds[k].value.Floor as real
    requires forall r :: 0 <= r < s.rowCount ==> (mask[r] <==> Matches(preds[..k], s, r))
    ensures |mask'| == s.rowCount
    ensures forall r :: 0 <= r < s.rowCount ==> (mask'[r] <==> Matches(preds[..k + 1], s, r))
  {
    hide ValueAt, Satisfies, SatisfiesByMask, SatisfiesConverted;
    var p := preds[k];
    var c := s.columns[p.field];
    assert preds[..k + 1] == preds[..k] + [p];
    mask' := mask;
    for r := 0 to s.rowCount
      invariant |mask'| == s.rowCount
      invariant forall j :: 0 <= j < r ==> (mask'[j] <==> Matches(preds[..k + 1], s, j))
      invariant forall j :: r <= j < s.rowCount ==> mask'[j] == mask[j]
    {
      if mask'[r] {
        var v := FieldValue(c, s.rowCount, r);
        var n := Truncate(p.value);
        ConversionIrrelevant(v, c.ftype, p.op, p.value, n);
        mask' := mask'[r := if compressed then SatisfiesByMask(v, c.ftype, p.op, p.value, n)
                            else SatisfiesConverted(v, c.ftype, p.op, p.value, n)];
      }
    }
  }

  /** Where a row has a number, a constant that fits is compared as it is. */
  lemma OneQualifies(preds: seq<Predicate>, types: seq<FieldType>, w: ScanSegment, r: nat, compressed: bool, cast: real -> int)
    requires Readable(w) && HasTypes(w, types) && AllParsed(preds, types) && SingleEq(preds) && r < w.rowCount && IsCast(cast)
    requires ValueAt(w.columns[preds[0].field], w.rowCount, r).Fixed? ==> Narrows(types[preds[0].field], preds[0].value)
    ensures Wide(FirstRows(w, w.rowCount), types)
    ensures var p, c := preds[0], w.columns[preds[0].field];
            Qualifies(preds, types, FirstRows(w, w.rowCount)[r]) <==>
            Satisfies(ValueAt(c, w.rowCount, r), c.ftype, Eq, Converted(c.ftype, p.value, compressed, cast))
  {
    hide WellFormed, ValueAt, Double;
    var p, c := preds[0], w.columns[preds[0].field];
    ColumnReadable(w, p.field);
    if ValueAt(c, w.rowCount, r).Fixed? {
      ConvertedFits(c.ftype, p.value, compressed, cast);
    }
  }

  // ---------- The accumulators of an aggregate ----------

  /** The fields of one request share an accumulator. */
  predicate NeedMixed(q: Request) {
    && q.sum.Some? && (q.min.Some? || q.max.Some?)
    && (q.min.Some? ==> q.sum == q.min) && (q.max.Some? ==> q.sum == q.max)
  }

  /** One number, as the fast paths add it. */
  function Include(a: Aggregate, x: real): Aggregate {
    Aggregate(a.count + 1, a.sum + x,
              if !a.hasValue || x < a.min then x else a.min, if !a.hasValue || x > a.max then x else a.max, true)
  }

  lemma IncludeSpans(a: Aggregate, xs: seq<real>, x: real)
    requires Spans(a, xs)
    ensures Spans(Include(a, x), xs + [x])
  {
    var ys := xs + [x];
    assert ys[|xs|] == x && forall y :: y in xs ==> y in ys;
  }

  /** The extremes of one more segment, as the mask path adds them. */
  function Join(a: Aggregate, b: Aggregate): Aggregate {
    if !b.hasValue then a.(count := a.count + b.count)
    else if !a.hasValue then b
    else a.(min := if b.min < a.min then b.min else a.min, max := if b.max > a.max then b.max else a.max,
            count := a.count + b.count)
  }

  lemma JoinSpans(a: Aggregate, xs: seq<real>, b: Aggregate, ys: seq<real>)
    requires Spans(a, xs) && Spans(b, ys)
    ensures Spans(Join(a, b), xs + ys)
  {
    var zs := xs + ys;
    assert forall z :: z in xs || z in ys ==> z in zs;
    if ys == [] {
      assert zs == xs;
    } else if xs == [] {
      assert zs == ys;
    }
  }

  lemma SpansAnySum(a: Aggregate, xs: seq<real>, sum: real)
    requires Spans(a, xs)
    ensures Spans(a.(sum := sum), xs)
  {
  }

  lemma SumStep(xs: seq<real>, x: real)
    ensures Sum(xs + [x]) == Sum(xs) + x
  {
    assert (xs + [x])[..|xs|] == xs;
  }

  class Totals {
    const preds: seq<Predicate>
    const types: seq<FieldType>
    const q: Request
    var sumAcc: real
    var minmaxAcc: Aggregate
    var mixedAcc: Aggregate
    var matchCount: nat

    ghost predicate Fit() { RequestFits(q, types) && AllParsed(preds, types) }

    /** The accumulators after the rows `seen`, in any number of segments. */
    ghost predicate Tallied(seen: seq<ValueRow>)
      requires Fit() && Wide(seen, types)
      reads this
    {
      && matchCount == Hits(preds, types, seen)
      && (NeedMixed(q) ==> mixedAcc.sum == Sum(Selected(preds, types, q.sum.value, seen)) &&
                           Spans(mixedAcc, Selected(preds, types, q.sum.value, seen)))
      && (!NeedMixed(q) && q.sum.Some? ==> sumAcc == Sum(Selected(preds, types, q.sum.value, seen)))
      && (!NeedMixed(q) && (q.min.Some? || q.max.Some?) ==>
            Spans(minmaxAcc, Selected(preds, types, ExtremeField(q), seen)))
    }

    constructor (preds: seq<Predicate>, types: seq<FieldType>, q: Request)
      requires RequestFits(q, types) && AllParsed(preds, types)
      ensures this.preds == preds && this.types == types && this.q == q
      ensures Fit() && Tallied([])
    {
      this.preds, this.types, this.q := preds, types, q;
      sumAcc, minmaxAcc, mixedAcc, matchCount := 0.0, NOTHING, NOTHING, 0;
    }

    /** A row that satisfies the predicate of the fast path: `sum` and `extreme` are its numbers, if it has them. */
    method TakeMatch(sum: Value, extreme: Value, ghost seen: seq<ValueRow>, ghost row: ValueRow)
      requires Fit() && Wide(seen, types) && Tallied(seen) && |row| == |types| && Qualifies(preds, types, row)
      requires q.sum.Some? ==> sum == row[q.sum.value]
      requires q.min.Some? || q.max.Some? ==> extreme == row[ExtremeField(q)]
      modifies this
      ensures Wide(seen + [row], types) && Tallied(seen + [row])
    {
      hide Spans, NumberOf, Selected, Hits, Sum, Qualifies;
      RowSelected(seen, row);
      matchCount := matchCount + 1;
      if NeedMixed(q) {
        if sum.Fixed? {
          var x := NumberOf(types[q.sum.value], sum.raw);
          ghost var xs := Selected(preds, types, q.sum.value, seen);
          IncludeSpans(mixedAcc, xs, x);
          SumStep(xs, x);
          mixedAcc := Include(mixedAcc, x);
        }
      } else {
        if q.sum.Some? && sum.Fixed? {
          var x := NumberOf(types[q.sum.value], sum.raw);
          SumStep(Selected(preds, types, q.sum.value, seen), x);
          sumAcc := sumAcc + x;
        }
        if (q.min.Some? || q.max.Some?) && extreme.Fixed? {
          var x := NumberOf(types[ExtremeField(q)], extreme.raw);
          IncludeSpans(minmaxAcc, Selected(preds, types, ExtremeField(q), seen), x);
          minmaxAcc := Include(minmaxAcc, x);
        }
      }
    }

    /** What one qualifying row adds. */
    lemma RowSelected(seen: seq<ValueRow>, row: ValueRow)
      requires Wide(seen, types) && |row| == |types| && Qualifies(preds, types, row)
      ensures Wide(seen + [row], types)
      ensures Hits(preds, types, seen + [row]) == Hits(preds, types, seen) + 1
      ensures forall f :: 0 <= f < |types| ==>
                Selected(preds, types, f, seen + [row]) ==
                if row[f].Fixed? then Selected(preds, types, f, seen) + [NumberOf(types[f], row[f].raw)]
                else Selected(preds, types, f, seen)
    {
      assert (seen + [row])[..|seen|] == seen;
      forall f | 0 <= f < |types|
        ensures Selected(preds, types, f, seen) + [] == Selected(preds, types, f, seen)
      {
      }
    }

    /** Rows that do not qualify leave the accumulators as they are. */
    lemma {:induction false} NothingSelected(seen: seq<ValueRow>, more: seq<ValueRow>)
      requires Wide(seen, types) && Wide(more, types)
      requires forall i :: 0 <= i < |more| ==> !Qualifies(preds, types, more[i])
      ensures Wide(seen + more, types)
      ensures Hits(preds, types, seen + more) == Hits(preds, types, seen)
      ensures forall f :: 0 <= f < |types| ==> Selected(preds, types, f, seen + more) == Selected(preds, types, f, seen)
    {
      if more == [] {
        assert seen + more == seen;
      } else {
        var front := more[..|more| - 1];
        NothingSelected(seen, front);
        assert (seen + more)[..|seen + more| - 1] == seen + front;
        forall f | 0 <= f < |types|
          ensures Selected(preds, types, f, seen) + [] == Selected(preds, types, f, seen)
        {
        }
      }
    }

    /** The fast path over one segment. */
    method FastPath(w: ScanSegment, compressed: bool, cast: real -> int, ghost seen: seq<ValueRow>)
      requires Fit() && Wide(seen, types) && Tallied(seen) && SingleEq(preds)
      requires Readable(w) && !w.compressed && HasTypes(w, types) && Wide(FirstRows(w, w.rowCount), types)
      requires forall r :: 0 <= r < w.rowCount && ValueAt(w.columns[preds[0].field], w.rowCount, r).Fixed? ==>
                 Narrows(types[preds[0].field], preds[0].value)
      requires IsCast(cast)
      modifies this
      ensures Wide(seen + FirstRows(w, w.rowCount), types) && Tallied(seen + FirstRows(w, w.rowCount))
    {
      hide Readable, WellFormed, ValueAt, Satisfies, Totals.Tallied;
      ghost var rows := FirstRows(w, w.rowCount);
      assert rows[..0] == [] && seen + [] == seen;
      var p := preds[0];
      ColumnReadable(w, p.field);
      for r := 0 to w.rowCount
        invariant Wide(seen + rows[..r], types) && Tallied(seen + rows[..r])
      {
        assert seen + rows[..r + 1] == (seen + rows[..r]) + [rows[r]];
        var m := MatchSingleEq(w.columns[p.field], w.rowCount, p, r, compressed, cast);
        OneQualifies(preds, types, w, r, compressed, cast);
        if m {
          var sum, extreme := Missing, Missing;
          if q.sum.Some? {
            ColumnReadable(w, q.sum.value);
            sum := FieldValue(w.columns[q.sum.value], w.rowCount, r);
          }
          if q.min.Some? || q.max.Some? {
            ColumnReadable(w, ExtremeField(q));
            extreme := FieldValue(w.columns[ExtremeField(q)], w.rowCount, r);
          }
          TakeMatch(sum, extreme, seen + rows[..r], rows[r]);
        } else {
          KeepTally(seen + rows[..r], [rows[r]]);
        }
      }
      assert rows[..w.rowCount] == rows;
    }

    /** The mask path over one segment. */
    method MaskPath(w: ScanSegment, compressed: bool, ghost seen: seq<ValueRow>)
      requires Fit() && Wide(seen, types) && Tallied(seen) && Readable(w) && BoolColumns(w)
      requires Readable(w) && !w.compressed && HasTypes(w, types) && Wide(FirstRows(w, w.rowCount), types)
      modifies this
      ensures Wide(seen + FirstRows(w, w.rowCount), types) && Tallied(seen + FirstRows(w, w.rowCount))
    {
      hide Readable, WellFormed, ValueAt, Selected, Hits, Qualifies, Sum, Spans, Matches;
      ghost var rows := FirstRows(w, w.rowCount);
      var mask := MaskOf(preds, types, w, compressed);
      MaskQualifies(preds, types, w, mask);
      HitsConcat(preds, types, seen, rows);
      var n := CountMask(preds, types, rows, mask);
      matchCount := matchCount + n;
      if NeedMixed(q) {
        var a := SegmentTotal(w, mask, q.sum.value, seen);
        JoinSpans(mixedAcc, Selected(preds, types, q.sum.value, seen), a, Selected(preds, types, q.sum.value, rows));
        SpansAnySum(Join(mixedAcc, a), Selected(preds, types, q.sum.value, seen + rows), mixedAcc.sum + a.sum);
        mixedAcc := Join(mixedAcc, a).(sum := mixedAcc.sum + a.sum);
      } else {
        if q.sum.Some? {
          var a := SegmentTotal(w, mask, q.sum.value, seen);
          sumAcc := sumAcc + a.sum;
        }
        if q.min.Some? || q.max.Some? {
          var a := SegmentTotal(w, mask, ExtremeField(q), seen);
          JoinSpans(minmaxAcc, Selected(preds, types, ExtremeField(q), seen), a,
                    Selected(preds, types, ExtremeField(q), rows));
          minmaxAcc := Join(minmaxAcc, a);
        }
      }
    }

    /** The aggregate of one column of a segment under a mask. */
    method SegmentTotal(w: ScanSegment, mask: seq<bool>, field: nat, ghost seen: seq<ValueRow>) returns (a: Aggregate)
      requires Readable(w) && !w.compressed && HasTypes(w, types) && Wide(FirstRows(w, w.rowCount), types)
      requires Wide(seen, types) && field < |types| && IsNumeric(types[field]) && |mask| == w.rowCount
      requires forall r :: 0 <= r < w.rowCount ==> (mask[r] <==> Qualifies(preds, types, FirstRows(w, w.rowCount)[r]))
      ensures var rows := FirstRows(w, w.rowCount);
              && Spans(a, Selected(preds, types, field, rows)) && a.sum == Sum(Selected(preds, types, field, rows))
              && Wide(seen + rows, types)
              && Selected(preds, types, field, seen + rows) ==
                 Selected(preds, types, field, seen) + Selected(preds, types, field, rows)
              && Sum(Selected(preds, types, field, seen + rows)) == Sum(Selected(preds, types, field, seen)) + a.sum
    {
      hide Readable, WellFormed, ValueAt, Selected, Qualifies, Sum;
      ghost var rows := FirstRows(w, w.rowCount);
      ColumnReadable(w, field);
      a := AggregateMixed(w.columns[field], w.rowCount, mask, preds, types, field, rows);
      SelectedConcat(preds, types, field, seen, rows);
      SumConcat(Selected(preds, types, field, seen), Selected(preds, types, field, rows));
    }

    /** A pruned segment holds no row that qualifies. */
    lemma Pruned(s: ScanSegment, seen: seq<ValueRow>)
      requires Fit() && Wide(seen, types) && Tallied(seen)
      requires Readable(s) && HasTypes(s, types) && Wide(FirstRows(s, s.rowCount), types)
      requires forall r :: 0 <= r < s.rowCount ==> !Matches(preds, s, r)
      ensures Wide(seen + FirstRows(s, s.rowCount), types) && Tallied(seen + FirstRows(s, s.rowCount))
    {
      hide Readable, ValueAt, Totals.Tallied, Satisfies;
      var rows := FirstRows(s, s.rowCount);
      forall r | 0 <= r < |rows|
        ensures !Qualifies(preds, types, rows[r])
      {
        assert Matches(preds, s, r) <==> Qualifies(preds, types, rows[r]);
      }
      KeepTally(seen, rows);
    }

    /** The result dictionary. */
    method Finish(ghost seen: seq<ValueRow>) returns (a: Answer)
      requires Fit() && Wide(seen, types) && Tallied(seen)
      ensures a == Extension(preds, types, seen, q)
    {
      hide Selected, Hits, Sum, Least, Greatest, Spans;
      a := Answer(None, None, None, None);
      if q.sum.Some? {
        a := a.(sum := Some(if NeedMixed(q) then mixedAcc.sum else sumAcc));
      }
      if q.min.Some? || q.max.Some? {
        var acc := if NeedMixed(q) then mixedAcc else minmaxAcc;
        SpansExtremes(acc, Selected(preds, types, ExtremeField(q), seen));
        if q.min.Some? {
          a := a.(min := Some(if acc.hasValue then Some(acc.min) else None));
        }
        if q.max.Some? {
          a := a.(max := Some(if acc.hasValue then Some(acc.max) else None));
        }
      }
      if q.count {
        var count := matchCount;
        if q.sum.None? && (q.min.Some? || q.max.Some?) {
          count := minmaxAcc.count;
          SpansExtremes(minmaxAcc, Selected(preds, types, ExtremeField(q), seen));
        }
        a := a.(count := Some(count));
      }
    }

    lemma KeepTally(seen: seq<ValueRow>, more: seq<ValueRow>)
      requires Fit() && Wide(seen, types) && Wide(more, types) && Tallied(seen)
      requires forall i :: 0 <= i < |more| ==> !Qualifies(preds, types, more[i])
      ensures Wide(seen + more, types) && Tallied(seen + more)
    {
      hide Selected, Hits, Qualifies, Sum, Spans;
      NothingSelected(seen, more);
    }
  }

  lemma {:induction false} HitsConcat(preds: seq<Predicate>, types: seq<FieldType>, a: seq<ValueRow>, b: seq<ValueRow>)
    requires Wide(a, types) && Wide(b, types)
    ensures Wide(a + b, types) && Hits(preds, types, a + b) == Hits(preds, types, a) + Hits(preds, types, b)
  {
    hide Qualifies;
    if b == [] {
      assert a + b == a;
    } else {
      HitsConcat(preds, types, a, b[..|b| - 1]);
      assert (a + b)[..|a + b| - 1] == a + b[..|b| - 1];
    }
  }

  lemma {:induction false} LeastIsLeast(xs: seq<real>)
    requires xs != []
    ensures Least(xs).Some? && Greatest(xs).Some?
    ensures Least(xs).value in xs && Greatest(xs).value in xs
    ensures forall i :: 0 <= i < |xs| ==> Least(xs).value <= xs[i] <= Greatest(xs).value
  {
    var front := xs[..|xs| - 1];
    if front != [] {
      LeastIsLeast(front);
      assert forall x :: x in front ==> x in xs;
    }
  }

  lemma SpansExtremes(a: Aggregate, xs: seq<real>)
    requires Spans(a, xs)
    ensures a.count == |xs|
    ensures Least(xs) == (if a.hasValue then Some(a.min) else None)
    ensures Greatest(xs) == (if a.hasValue then Some(a.max) else None)
  {
    if xs != [] {
      LeastIsLeast(xs);
    }
  }

  // ---------- The aggregate query ----------

  /** The numbers of an int32 column are int32 values, and the zone maps of integer columns are as tight as possible. */
  ghost predicate StatsTight(s: ScanSegment)
    requires Readable(s)
  {
    && |s.stats| == |s.columns| && StatsSound(s)
    && forall i :: 0 <= i < |s.columns| && s.columns[i].ftype.Int32? ==>
         && Int32Column(s.columns[i], s.rowCount)
         && (s.stats[i].hasValue ==>
               Attained(s.columns[i], s.rowCount, s.stats[i].min) && Attained(s.columns[i], s.rowCount, s.stats[i].max))
  }

  ghost predicate Int32Column(c: ColumnView, n: nat)
    requires WellFormed(c, n)
  {
    forall r :: 0 <= r < n && ValueAt(c, n, r).Fixed? ==> ValueAt(c, n, r).raw < 0x1_0000_0000
  }

  /** A segment that is not pruned never makes the fast path convert a constant that int32_t cannot hold. */
  lemma NarrowingIsSafe(c: ColumnView, n: nat, stats: ColumnStats, value: real, r: nat)
    requires WellFormed(c, n) && r < n && c.ftype.Int32? && Int32Column(c, n) && Bounds(stats, c, n)
    requires stats.hasValue ==> Attained(c, n, stats.min) && Attained(c, n, stats.max)
    requires ValueAt(c, n, r).Fixed? && SegmentMatchesPredicate(stats, Eq, value)
    ensures Narrows(c.ftype, value)
  {
    hide ValueAt, WellFormed;
    assert stats.hasValue;
    var low :| 0 <= low < n && ValueAt(c, n, low).Fixed? && NumberOf(c.ftype, ValueAt(c, n, low).raw) == stats.min;
    var high :| 0 <= high < n && ValueAt(c, n, high).Fixed? && NumberOf(c.ftype, ValueAt(c, n, high).raw) == stats.max;
  }

  /** The pruning loop of the aggregate: every column has a zone map here. */
  method MayMatch(preds: seq<Predicate>, types: seq<FieldType>, s: ScanSegment) returns (may: bool)
    requires Readable(s) && HasTypes(s, types) && StatsTight(s) && AllParsed(preds, types)
    ensures !may ==> forall r :: 0 <= r < s.rowCount ==> !Matches(preds, s, r)
    ensures may ==> forall k :: 0 <= k < |preds| ==>
                      SegmentMatchesPredicate(s.stats[preds[k].field], preds[k].op, preds[k].value)
  {
    hide WellFormed, ValueAt, Satisfies, SegmentMatchesPredicate, Bounds;
    for k := 0 to |preds|
      invariant forall j :: 0 <= j < k ==> SegmentMatchesPredicate(s.stats[preds[j].field], preds[j].op, preds[j].value)
    {
      var p := preds[k];
      if !SegmentMatchesPredicate(s.stats[p.field], p.op, p.value) {
        forall r | 0 <= r < s.rowCount
          ensures !Matches(preds, s, r)
        {
          PruningIsSound(s.stats[p.field], s.columns[p.field], s.rowCount, r, p.op, p.value);
        }
        return false;
      }
    }
    return true;
  }

  ghost predicate Ready(s: ScanSegment, types: seq<FieldType>) {
    && Readable(s) && HasTypes(s, types) && SegmentDecodable(s) && StatsTight(s)
    && (forall i :: 0 <= i < |s.columns| ==> FiniteColumn(s.columns[i], s.rowCount)) && BoolColumns(s)
  }

  /** One segment of the aggregate; `pruned` tells whether its rows were looked at. */
  method AggregateSegment(t: Totals, s: ScanSegment, cast: real -> int, ghost seen: seq<ValueRow>) returns (pruned: bool)
    requires IsCast(cast) && t.Fit() && Wide(seen, t.types) && t.Tallied(seen) && Ready(s, t.types)
    modifies t
    ensures var rows := FirstRows(s, s.rowCount);
            Wide(rows, t.types) && Wide(seen + rows, t.types) && t.Tallied(seen + rows)
  {
    hide Readable, WellFormed, ValueAt, Totals.Tallied, Matches, SegmentMatchesPredicate, StatsTight, SegmentDecodable;
    var may := MayMatch(t.preds, t.types, s);
    if !may {
      t.Pruned(s, seen);
      return true;
    }
    var ok, w := BuildReadableColumns(s, t.types);
    if SingleEq(t.preds) {
      FastPathIsSafe(t.preds, t.types, s, w);
      t.FastPath(w, s.compressed, cast, seen);
    } else {
      t.MaskPath(w, s.compressed, seen);
    }
    return false;
  }

  lemma FastPathIsSafe(preds: seq<Predicate>, types: seq<FieldType>, s: ScanSegment, w: ScanSegment)
    requires Ready(s, types) && AllParsed(preds, types) && SingleEq(preds)
    requires SegmentMatchesPredicate(s.stats[preds[0].field], preds[0].op, preds[0].value)
    requires Readable(w) && HasTypes(w, types) && w.rowCount == s.rowCount
    requires FirstRows(w, w.rowCount) == FirstRows(s, s.rowCount)
    ensures forall r :: 0 <= r < w.rowCount && ValueAt(w.columns[preds[0].field], w.rowCount, r).Fixed? ==>
              Narrows(types[preds[0].field], preds[0].value)
  {
    hide ValueAt, WellFormed, SegmentMatchesPredicate, Bounds, Attained, Int32Column, SegmentDecodable;
    var f := preds[0].field;
    forall r | 0 <= r < w.rowCount && ValueAt(w.columns[f], w.rowCount, r).Fixed?
      ensures Narrows(types[f], preds[0].value)
    {
      assert FirstRows(w, w.rowCount)[r][f] == FirstRows(s, s.rowCount)[r][f];
      if types[f].Int32? {
        NarrowingIsSafe(s.columns[f], s.rowCount, s.stats[f], preds[0].value, r);
      }
    }
  }

  /**
   The extension's aggregate, whatever the division into segments and their
   storage; and every row is either scanned or pruned.
   */
  method DatasetAggregate(preds: seq<Predicate>, types: seq<FieldType>, q: Request, segments: seq<ScanSegment>,
                          cast: real -> int)
      returns (a: Answer, rowsScanned: nat, rowsPruned: nat)
    requires IsCast(cast) && RequestFits(q, types) && AllParsed(preds, types)
    requires forall i :: 0 <= i < |segments| ==> Ready(segments[i], types)
    ensures Typed(segments, types)
    ensures a == Extension(preds, types, AllValues(segments, types), q)
    ensures rowsScanned + rowsPruned == |AllValues(segments, types)|
  {
    hide Readable, Totals.Tallied, StatsTight, SegmentDecodable, AllValues, Extension, FirstRows;
    var t := new Totals(preds, types, q);
    rowsScanned, rowsPruned := 0, 0;
    NoValues(types);
    for i := 0 to |segments|
      invariant Typed(segments[..i], types)
      invariant t.Tallied(AllValues(segments[..i], types))
      invariant rowsScanned + rowsPruned == |AllValues(segments[..i], types)|
    {
      ghost var seen := AllValues(segments[..i], types);
      assert segments[..i + 1] == segments[..i] + [segments[i]];
      AllValuesLast(segments[..i], segments[i], types);
      var pruned := AggregateSegment(t, segments[i], cast, seen);
      if pruned {
        rowsPruned := rowsPruned + segments[i].rowCount;
      } else {
        rowsScanned := rowsScanned + segments[i].rowCount;
      }
    }
    assert segments[..|segments|] == segments;
    a := t.Finish(AllValues(segments, types));
  }

  lemma NoValues(types: seq<FieldType>)
    ensures Typed([], types) && AllValues([], types) == []
  {
  }

  lemma {:induction false} AllValuesLast(segments: seq<ScanSegment>, s: ScanSegment, types: seq<FieldType>)
    requires Typed(segments, types) && Readable(s) && HasTypes(s, types)
    ensures Typed(segments + [s], types) && |FirstRows(s, s.rowCount)| == s.rowCount
    ensures AllValues(segments + [s], types) == AllValues(segments, types) + FirstRows(s, s.rowCount)
    decreases segments
  {
    hide Readable, FullRow;
    if segments == [] {
      assert [s][1..] == [];
    } else {
      AllValuesLast(segments[1..], s, types);
      assert (segments + [s])[1..] == segments[1..] + [s];
      Regroup(FirstRows(segments[0], segments[0].rowCount), AllValues(segments[1..], types), FirstRows(s, s.rowCount));
    }
  }

  // ---------- The scan ----------

  method ReadRow(w: ScanSegment, compressed: bool, outs: seq<Output>, types: seq<FieldType>, r: nat) returns (row: ValueRow)
    requires Readable(w) && !w.compressed && HasTypes(w, types) && Fits(outs, types) && r < w.rowCount
    ensures Wide(SeenRows(w, compressed), types) && row == Project(outs, types, SeenRows(w, compressed)[r])
  {
    hide WellFormed, ValueAt, SeenAt;
    row := [];
    for i := 0 to |outs|
      invariant row == Project(outs, types, SeenRows(w, compressed)[r])[..i]
    {
      var v := ReadValue(w.columns[outs[i].index], w.rowCount, compressed, r);
      row := row + [v];
    }
  }

  /** One value of a row: a string of a compressed segment is read only if both of its pointers are there. */
  method ReadValue(c: ColumnView, n: nat, compressed: bool, r: nat) returns (v: Value)
    requires WellFormed(c, n) && !IsLz4(c) && r < n
    ensures v == SeenAt(c, n, r, compressed)
  {
    hide ValueAt;
    if compressed && IsVarlen(c.ftype) {
      var bytes := c.store.bytes;
      if bytes == [] {
        return Missing;
      }
    }
    v := FieldValue(c, n, r);
  }

  /** A predicate sees the values as they are: it is about a numeric column. */
  lemma SeenQualifies(preds: seq<Predicate>, types: seq<FieldType>, s: ScanSegment, compressed: bool)
    requires Readable(s) && HasTypes(s, types) && forall k :: 0 <= k < |preds| ==> preds[k].field < |types| && IsNumeric(types[preds[k].field])
    ensures Wide(FirstRows(s, s.rowCount), types) && Wide(SeenRows(s, compressed), types)
    ensures forall r :: 0 <= r < s.rowCount ==>
              (Qualifies(preds, types, SeenRows(s, compressed)[r]) <==> Qualifies(preds, types, FirstRows(s, s.rowCount)[r]))
  {
    hide WellFormed, ValueAt, Satisfies;
    forall r, k | 0 <= r < s.rowCount && 0 <= k < |preds|
      ensures SeenRows(s, compressed)[r][preds[k].field] == FirstRows(s, s.rowCount)[r][preds[k].field]
    {
      assert !Byteless(s.columns[preds[k].field], s.rowCount);
    }
  }

  /** The predicates as the scan applies them to one segment. */
  function ConvertedPreds(preds: seq<Predicate>, types: seq<FieldType>, compressed: bool, cast: real -> int): seq<Predicate>
    requires AllParsed(preds, types)
  {
    if SingleEq(preds) then
      [preds[0].(value := Converted(types[preds[0].field], preds[0].value, compressed, cast))]
    else preds
  }

  /** The rows of a segment that satisfy the predicates, by the path that the predicates choose. */
  method MatchingRows(preds: seq<Predicate>, types: seq<FieldType>, w: ScanSegment, compressed: bool, cast: real -> int)
      returns (mask: seq<bool>)
    requires Readable(w) && !w.compressed && HasTypes(w, types) && AllParsed(preds, types) && BoolColumns(w)
    ensures |mask| == w.rowCount && Wide(SeenRows(w, compressed), types)
    ensures forall r :: 0 <= r < w.rowCount ==>
              (mask[r] <==> Qualifies(ConvertedPreds(preds, types, compressed, cast), types, SeenRows(w, compressed)[r]))
  {
    hide Readable, WellFormed, ValueAt, Satisfies, Matches, Converted, SeenRows, BoolColumns, Qualifies, ConvertedPreds;
    if SingleEq(preds) {
      mask := [];
      ColumnReadable(w, preds[0].field);
      for r := 0 to w.rowCount
        invariant |mask| == r
        invariant forall j :: 0 <= j < r ==>
                    (mask[j] <==> Qualifies(ConvertedPreds(preds, types, compressed, cast), types, FirstRows(w, w.rowCount)[j]))
      {
        OneConverted(preds, types, w, r, compressed, cast);
        var m := MatchSingleEq(w.columns[preds[0].field], w.rowCount, preds[0], r, compressed, cast);
        mask := mask + [m];
      }
    } else {
      assert ConvertedPreds(preds, types, compressed, cast) == preds by {
        OtherPredsStay(preds, types, compressed, cast);
      }
      mask := MaskOf(preds, types, w, compressed);
      MaskQualifies(preds, types, w, mask);
    }
    ConvertedNumeric(preds, types, compressed, cast);
    SeenQualifies(ConvertedPreds(preds, types, compressed, cast), types, w, compressed);
  }

  lemma OtherPredsStay(preds: seq<Predicate>, types: seq<FieldType>, compressed: bool, cast: real -> int)
    requires AllParsed(preds, types) && !SingleEq(preds)
    ensures ConvertedPreds(preds, types, compressed, cast) == preds
  {
  }

  lemma ConvertedNumeric(preds: seq<Predicate>, types: seq<FieldType>, compressed: bool, cast: real -> int)
    requires AllParsed(preds, types)
    ensures var cp := ConvertedPreds(preds, types, compressed, cast);
            forall k :: 0 <= k < |cp| ==> cp[k].field < |types| && IsNumeric(types[cp[k].field])
  {
  }

  /** The only predicate, with its converted constant, on one row. */
  lemma OneConverted(preds: seq<Predicate>, types: seq<FieldType>, w: ScanSegment, r: nat, compressed: bool, cast: real -> int)
    requires Readable(w) && HasTypes(w, types) && AllParsed(preds, types) && SingleEq(preds) && r < w.rowCount
    ensures Wide(FirstRows(w, w.rowCount), types)
    ensures var p, c := preds[0], w.columns[preds[0].field];
            Qualifies(ConvertedPreds(preds, types, compressed, cast), types, FirstRows(w, w.rowCount)[r]) <==>
            Satisfies(ValueAt(c, w.rowCount, r), c.ftype, Eq, Converted(c.ftype, p.value, compressed, cast))
  {
    hide WellFormed, ValueAt, Satisfies, Converted;
    var p := preds[0];
    ColumnReadable(w, p.field);
    FirstRowsWide(w, types);
    var cp, row := ConvertedPreds(preds, types, compressed, cast), FirstRows(w, w.rowCount)[r];
    assert cp == [p.(value := Converted(types[p.field], p.value, compressed, cast))];
    assert Qualifies(cp, types, row) <==> Satisfies(row[cp[0].field], types[cp[0].field], cp[0].op, cp[0].value);
  }

  /** One segment of the scan, after the segments before it found `before`. */
  method ScanSegmentRows(preds: seq<Predicate>, outs: seq<Output>, types: seq<FieldType>, w: ScanSegment,
                         compressed: bool, cast: real -> int, limit: nat, offset: nat,
                         rows: seq<ValueRow>, skipped: nat, added: nat, ghost before: seq<ValueRow>)
      returns (rows': seq<ValueRow>, skipped': nat, added': nat, stop: bool)
    requires Readable(w) && !w.compressed && HasTypes(w, types) && Fits(outs, types) && AllParsed(preds, types)
    requires BoolColumns(w)
    requires (limit == 0 || added < limit) && ScanAt(before, offset, limit, rows, skipped, added)
    ensures Wide(SeenRows(w, compressed), types)
    ensures var found := before + Found(ConvertedPreds(preds, types, compressed, cast), outs, types, SeenRows(w, compressed));
            && rows' == Take(Drop(found, offset), limit)
            && (stop ==> limit > 0 && |rows'| >= limit)
            && (!stop ==> ScanAt(found, offset, limit, rows', skipped', added') && (limit == 0 || added' < limit))
  {
    hide Readable, Qualifies, Found, Take, Drop, ScanAt, Project, SeenRow, ConvertedPreds, BoolColumns;
    var mask := MatchingRows(preds, types, w, compressed, cast);
    ghost var cp, all := ConvertedPreds(preds, types, compressed, cast), SeenRows(w, compressed);
    rows', skipped', added', stop := rows, skipped, added, false;
    NothingFound(cp, outs, types, before, all);
    for r := 0 to w.rowCount
      invariant limit == 0 || added' < limit
      invariant ScanAt(before + Found(cp, outs, types, all[..r]), offset, limit, rows', skipped', added')
    {
      FoundStep(cp, outs, types, all, r);
      ghost var found := Found(cp, outs, types, all[..r]);
      assert found + [] == found;
      if mask[r] {
        var row := ReadRow(w, compressed, outs, types, r);
        assert before + (found + [row]) == (before + found) + [row];
        rows', skipped', added', stop := TakeRow(before + found, offset, limit, rows', skipped', added', row);
        if stop {
          SegmentCutShort(cp, outs, types, before, all, r + 1, offset, limit, rows', skipped', added');
          return;
        }
      }
    }
    assert all[..w.rowCount] == all;
    AtEnd(before + Found(cp, outs, types, all), offset, limit, rows', skipped', added');
  }

  lemma NothingFound(preds: seq<Predicate>, outs: seq<Output>, types: seq<FieldType>, before: seq<ValueRow>, all: seq<ValueRow>)
    requires Fits(outs, types) && Wide(all, types)
    ensures before + Found(preds, outs, types, all[..0]) == before
  {
  }

  lemma SegmentCutShort(preds: seq<Predicate>, outs: seq<Output>, types: seq<FieldType>, before: seq<ValueRow>,
                        all: seq<ValueRow>, n: nat, offset: nat, limit: nat, rows: seq<ValueRow>, skipped: nat, added: nat)
    requires Fits(outs, types) && Wide(all, types) && n <= |all| && limit > 0 && added >= limit && Wide(all[..n], types)
    requires ScanAt(before + Found(preds, outs, types, all[..n]), offset, limit, rows, skipped, added)
    ensures rows == Take(Drop(before + Found(preds, outs, types, all), offset), limit) && |rows| >= limit
  {
    hide Found, Take, Drop;
    FoundSplit(preds, outs, types, all, n);
    var some, rest := Found(preds, outs, types, all[..n]), Found(preds, outs, types, all[n..]);
    assert before + (some + rest) == (before + some) + rest;
    LimitReached(before + some, rest, offset, limit);
  }

  /** The rows that the scan finds, segment by segment. */
  ghost function ScanFinds(preds: seq<Predicate>, outs: seq<Output>, types: seq<FieldType>, segments: seq<ScanSegment>,
                           cast: real -> int): seq<ValueRow>
    requires Fits(outs, types) && AllParsed(preds, types) && Typed(segments, types)
  {
    if segments == [] then []
    else
      var last := segments[|segments| - 1];
      ScanFinds(preds, outs, types, segments[..|segments| - 1], cast) +
      Found(ConvertedPreds(preds, types, last.compressed, cast), outs, types, SeenRows(last, last.compressed))
  }

  lemma ScanFindsMore(preds: seq<Predicate>, outs: seq<Output>, types: seq<FieldType>, segments: seq<ScanSegment>,
                      cast: real -> int, i: nat)
    requires Fits(outs, types) && AllParsed(preds, types) && Typed(segments, types) && i < |segments|
    ensures Typed(segments[..i], types) && Typed(segments[..i + 1], types) && Readable(segments[i])
    ensures Wide(SeenRows(segments[i], segments[i].compressed), types)
    ensures ScanFinds(preds, outs, types, segments[..i + 1], cast) ==
            ScanFinds(preds, outs, types, segments[..i], cast) +
            Found(ConvertedPreds(preds, types, segments[i].compressed, cast), outs, types,
                  SeenRows(segments[i], segments[i].compressed))
  {
    hide Readable, Found, SeenRow, ConvertedPreds;
    assert segments[..i + 1][..i] == segments[..i];
  }

  lemma {:induction false} ScanFindsPrefix(preds: seq<Predicate>, outs: seq<Output>, types: seq<FieldType>,
                                          segments: seq<ScanSegment>, cast: real -> int, i: nat)
    requires Fits(outs, types) && AllParsed(preds, types) && Typed(segments, types) && i <= |segments|
    ensures Typed(segments[..i], types)
    ensures ScanFinds(preds, outs, types, segments[..i], cast) <= ScanFinds(preds, outs, types, segments, cast)
    decreases |segments| - i
  {
    hide ScanFinds, Readable;
    if i < |segments| {
      ScanFindsPrefix(preds, outs, types, segments, cast, i + 1);
      ScanFindsMore(preds, outs, types, segments, cast, i);
    } else {
      assert segments[..i] == segments;
    }
  }

  lemma NothingScanned(preds: seq<Predicate>, outs: seq<Output>, types: seq<FieldType>, cast: real -> int, offset: nat, limit: nat)
    requires Fits(outs, types) && AllParsed(preds, types)
    ensures Typed([], types) && ScanAt(ScanFinds(preds, outs, types, [], cast), offset, limit, [], 0, 0)
  {
  }

  /** A segment that the scan can read. */
  ghost predicate Decodes(s: ScanSegment, types: seq<FieldType>) {
    && Readable(s) && HasTypes(s, types) && SegmentDecodable(s)
    && (forall i :: 0 <= i < |s.columns| ==> FiniteColumn(s.columns[i], s.rowCount)) && BoolColumns(s)
  }

  /** The extension's scan cuts offset and limit from what the segments give, with the constant converted as it is for each. */
  method DatasetScan(preds: seq<Predicate>, types: seq<FieldType>, outs: seq<Output>, segments: seq<ScanSegment>,
                     limit: nat, offset: nat, cast: real -> int)
      returns (rows: seq<ValueRow>)
    requires Fits(outs, types) && AllParsed(preds, types)
    requires forall i :: 0 <= i < |segments| ==> Decodes(segments[i], types)
    ensures Typed(segments, types)
    ensures rows == Take(Drop(ScanFinds(preds, outs, types, segments, cast), offset), limit)
  {
    hide Readable, SegmentDecodable, FirstRows, SeenRows, Found, Take, Drop, ScanAt, ScanFinds, ConvertedPreds, FiniteColumn,
         BoolColumn;
    assert Typed(segments, types);
    rows := [];
    var skipped: nat, added: nat, stop := 0, 0, false;
    NothingScanned(preds, outs, types, cast, offset, limit);
    assert segments[..0] == [];
    for i := 0 to |segments|
      invariant limit == 0 || added < limit
      invariant Typed(segments[..i], types)
      invariant ScanAt(ScanFinds(preds, outs, types, segments[..i], cast), offset, limit, rows, skipped, added)
    {
      ScanFindsMore(preds, outs, types, segments, cast, i);
      var ok, w := BuildReadableColumns(segments[i], types);
      ghost var before := ScanFinds(preds, outs, types, segments[..i], cast);
      rows, skipped, added, stop :=
        ScanSegmentRows(preds, outs, types, w, segments[i].compressed, cast, limit, offset, rows, skipped, added, before);
      if stop {
        ScanFindsPrefix(preds, outs, types, segments, cast, i + 1);
        StopIsFinal(ScanFinds(preds, outs, types, segments[..i + 1], cast), ScanFinds(preds, outs, types, segments, cast),
                    offset, limit);
        return;
      }
    }
    assert segments[..|segments|] == segments;
    AtEnd(ScanFinds(preds, outs, types, segments, cast), offset, limit, rows, skipped, added);
  }

  lemma StopIsFinal(some: seq<ValueRow>, all: seq<ValueRow>, offset: nat, limit: nat)
    requires some <= all && limit > 0 && |Take(Drop(some, offset), limit)| >= limit
    ensures Take(Drop(some, offset), limit) == Take(Drop(all, offset), limit)
  {
    hide Take, Drop;
    assert all == some + all[|some|..];
    LimitReached(some, all[|some|..], offset, limit);
  }

  // ---------- When the scan finds what the Python loop finds ----------

  /** A row that is found has a text, in an output column of a compressed segment, whose column has no bytes. */
  ghost predicate HidesText(preds: seq<Predicate>, outs: seq<Output>, types: seq<FieldType>, s: ScanSegment)
    requires Readable(s) && HasTypes(s, types) && Fits(outs, types)
  {
    s.compressed && exists r, i ::
      && 0 <= r < s.rowCount && 0 <= i < |outs| && Qualifies(preds, types, FirstRows(s, s.rowCount)[r])
      && s.columns[outs[i].index].valid[r] && Byteless(s.columns[outs[i].index], s.rowCount)
  }

  ghost predicate HidesNoText(preds: seq<Predicate>, outs: seq<Output>, types: seq<FieldType>, segments: seq<ScanSegment>)
    requires Typed(segments, types) && Fits(outs, types)
  {
    forall i :: 0 <= i < |segments| ==> !HidesText(preds, outs, types, segments[i])
  }

  /** Two lists whose rows qualify alike give the same results exactly when the qualifying rows look the same. */
  lemma {:induction false} FoundAligned(preds: seq<Predicate>, outs: seq<Output>, types: seq<FieldType>,
                                       a: seq<ValueRow>, b: seq<ValueRow>)
    requires Fits(outs, types) && Wide(a, types) && Wide(b, types) && |a| == |b|
    requires forall r :: 0 <= r < |a| ==> (Qualifies(preds, types, a[r]) <==> Qualifies(preds, types, b[r]))
    ensures |Found(preds, outs, types, a)| == |Found(preds, outs, types, b)|
    ensures Found(preds, outs, types, a) == Found(preds, outs, types, b) <==>
            forall r :: 0 <= r < |a| && Qualifies(preds, types, a[r]) ==> Project(outs, types, a[r]) == Project(outs, types, b[r])
  {
    hide Qualifies, Project;
    if a != [] {
      var n := |a| - 1;
      FoundAligned(preds, outs, types, a[..n], b[..n]);
      var more := if Qualifies(preds, types, a[n]) then [Project(outs, types, a[n])] else [];
      var same := if Qualifies(preds, types, a[n]) then [Project(outs, types, b[n])] else [];
      ConcatEqual(Found(preds, outs, types, a[..n]), more, Found(preds, outs, types, b[..n]), same);
      assert more == same <==> (Qualifies(preds, types, a[n]) ==> Project(outs, types, a[n]) == Project(outs, types, b[n])) by {
        if more == same && more != [] {
          assert more[0] == same[0];
        }
      }
    }
  }

  lemma ConcatEqual(a: seq<ValueRow>, x: seq<ValueRow>, b: seq<ValueRow>, y: seq<ValueRow>)
    requires |a| == |b|
    ensures a + x == b + y <==> a == b && x == y
  {
    if a + x == b + y {
      assert a == (a + x)[..|a|] && b == (b + y)[..|b|];
      assert x == (a + x)[|a|..] && y == (b + y)[|b|..];
    }
  }

  /** A segment shows what the Python loop finds exactly when it hides no text. */
  lemma SegmentAgrees(preds: seq<Predicate>, outs: seq<Output>, types: seq<FieldType>, s: ScanSegment)
    requires Fits(outs, types) && AllParsed(preds, types) && Readable(s) && HasTypes(s, types)
    ensures Wide(FirstRows(s, s.rowCount), types) && Wide(SeenRows(s, s.compressed), types)
    ensures var seen, all := SeenRows(s, s.compressed), FirstRows(s, s.rowCount);
            && |Found(preds, outs, types, seen)| == |Found(preds, outs, types, all)|
            && (Found(preds, outs, types, seen) == Found(preds, outs, types, all) <==> !HidesText(preds, outs, types, s))
  {
    hide Readable, Found, Qualifies, Project, HidesText;
    SeenQualifies(preds, types, s, s.compressed);
    var seen, all := SeenRows(s, s.compressed), FirstRows(s, s.rowCount);
    FoundAligned(preds, outs, types, seen, all);
    RowsDiffer(preds, outs, types, s);
  }

  lemma RowsDiffer(preds: seq<Predicate>, outs: seq<Output>, types: seq<FieldType>, s: ScanSegment)
    requires Fits(outs, types) && Readable(s) && HasTypes(s, types)
    ensures Wide(FirstRows(s, s.rowCount), types) && Wide(SeenRows(s, s.compressed), types)
    ensures HidesText(preds, outs, types, s) <==>
            exists r :: 0 <= r < s.rowCount && Qualifies(preds, types, FirstRows(s, s.rowCount)[r]) &&
                        Project(outs, types, SeenRows(s, s.compressed)[r]) != Project(outs, types, FirstRows(s, s.rowCount)[r])
  {
    hide Qualifies, WellFormed, Byteless, ValueAt;
    ValidLengths(s);
    var seen, all := SeenRows(s, s.compressed), FirstRows(s, s.rowCount);
    forall r | 0 <= r < s.rowCount
      ensures Project(outs, types, seen[r]) != Project(outs, types, all[r]) <==>
              s.compressed && exists i :: 0 <= i < |outs| && s.columns[outs[i].index].valid[r] &&
                                          Byteless(s.columns[outs[i].index], s.rowCount)
    {
      RowDiffers(outs, types, s, r);
    }
  }

  lemma ValidLengths(s: ScanSegment)
    requires Readable(s)
    ensures forall c :: 0 <= c < |s.columns| ==> |s.columns[c].valid| == s.rowCount
  {
  }

  lemma RowDiffers(outs: seq<Output>, types: seq<FieldType>, s: ScanSegment, r: nat)
    requires Fits(outs, types) && Readable(s) && HasTypes(s, types) && r < s.rowCount
    ensures Project(outs, types, SeenRow(s, r, s.compressed)) != Project(outs, types, FullRow(s, r)) <==>
            s.compressed && exists i :: 0 <= i < |outs| && s.columns[outs[i].index].valid[r] &&
                                        Byteless(s.columns[outs[i].index], s.rowCount)
  {
    hide Byteless;
    var seen, all := Project(outs, types, SeenRow(s, r, s.compressed)), Project(outs, types, FullRow(s, r));
    forall i | 0 <= i < |outs|
      ensures seen[i] != all[i] <==>
              s.compressed && s.columns[outs[i].index].valid[r] && Byteless(s.columns[outs[i].index], s.rowCount)
    {
      TextDiffers(s.columns[outs[i].index], s.rowCount, r, s.compressed);
    }
    if seen != all {
      var i :| 0 <= i < |outs| && seen[i] != all[i];
    }
  }

  lemma TextDiffers(c: ColumnView, n: nat, r: nat, compressed: bool)
    requires WellFormed(c, n) && r < n
    ensures SeenAt(c, n, r, compressed) != ValueAt(c, n, r) <==> compressed && c.valid[r] && Byteless(c, n)
  {
  }

  /**
   A scan whose constant fits finds in a table what the Python loop finds
   exactly when it hides no text there.
   */
  lemma {:induction false} ScanAgreesOnTable(preds: seq<Predicate>, outs: seq<Output>, types: seq<FieldType>,
                                            segments: seq<ScanSegment>, cast: real -> int)
    requires Fits(outs, types) && AllParsed(preds, types) && Typed(segments, types) && IsCast(cast)
    requires SingleEq(preds) ==> Narrows(types[preds[0].field], preds[0].value)
    ensures var found, reference := ScanFinds(preds, outs, types, segments, cast),
                                    Found(preds, outs, types, AllValues(segments, types));
            |found| == |reference| && (found == reference <==> HidesNoText(preds, outs, types, segments))
  {
    hide Readable, Found, AllValues, FirstRows, SeenRows, IsCast, HidesText, Narrows;
    NoValues(types);
    if segments == [] {
      FoundNothing(preds, outs, types);
    } else {
      var front, last := segments[..|segments| - 1], segments[|segments| - 1];
      ScanAgreesOnTable(preds, outs, types, front, cast);
      AllValuesLast(front, last, types);
      assert segments == front + [last];
      SegmentAgrees(preds, outs, types, last);
      FoundConcat(preds, outs, types, AllValues(front, types), FirstRows(last, last.rowCount));
      FittingPreds(preds, types, last.compressed, cast);
      ConcatEqual(ScanFinds(preds, outs, types, front, cast), Found(preds, outs, types, SeenRows(last, last.compressed)),
                  Found(preds, outs, types, AllValues(front, types)), Found(preds, outs, types, FirstRows(last, last.rowCount)));
    }
  }

  lemma FittingPreds(preds: seq<Predicate>, types: seq<FieldType>, compressed: bool, cast: real -> int)
    requires AllParsed(preds, types) && IsCast(cast)
    requires SingleEq(preds) ==> Narrows(types[preds[0].field], preds[0].value)
    ensures ConvertedPreds(preds, types, compressed, cast) == preds
  {
    hide IsCast, Narrows;
    if SingleEq(preds) {
      ConvertedFits(types[preds[0].field], preds[0].value, compressed, cast);
    }
  }

  lemma FoundNothing(preds: seq<Predicate>, outs: seq<Output>, types: seq<FieldType>)
    requires Fits(outs, types)
    ensures Found(preds, outs, types, []) == []
  {
  }

  /** A plain segment of one row, whose numbers have the bits `raw` and whose bools are false. */
  function OneRow(types: seq<FieldType>, raw: nat): (s: ScanSegment) {
    ScanSegment(false, seq(|types|, i requires 0 <= i < |types| => OneColumn(types[i], if types[i].Bool? then 0 else raw)),
                1, [])
  }

  function OneColumn(t: FieldType, raw: nat): ColumnView {
    ColumnView(t, [true], if IsVarlen(t) then RawTexts([0], []) else RawNumbers([raw]))
  }

  lemma OneValue(t: FieldType, raw: nat)
    ensures var c := OneColumn(t, raw);
            && WellFormed(c, 1) && !IsLz4(c) && ValueAt(c, 1, 0) == if IsVarlen(t) then Content([]) else Fixed(raw)
  {
    assert SumTo([0], 0) == 0 && SumTo([0], 1) == 0;
  }

  function ShownRow(types: seq<FieldType>, raw: nat): (row: ValueRow)
    ensures |row| == |types|
  {
    seq(|types|, i requires 0 <= i < |types| =>
      if IsVarlen(types[i]) then Content([]) else Fixed(if types[i].Bool? then 0 else raw))
  }

  lemma OneRowReads(types: seq<FieldType>, raw: nat, field: nat)
    requires field < |types| && !IsVarlen(types[field])
    ensures var s := OneRow(types, raw);
            Readable(s) && HasTypes(s, types) && |FirstRows(s, 1)| == 1 && FirstRows(s, 1)[0] == ShownRow(types, raw)
  {
    var s := OneRow(types, raw);
    forall i | 0 <= i < |types|
      ensures WellFormed(s.columns[i], 1) && !IsLz4(s.columns[i])
      ensures ValueAt(s.columns[i], 1, 0) == ShownRow(types, raw)[i]
    {
      OneValue(types[i], if types[i].Bool? then 0 else raw);
    }
    assert FullRow(s, 0) == ShownRow(types, raw);
  }

  /** A scan of that segment. */
  lemma OneRowScan(preds: seq<Predicate>, outs: seq<Output>, types: seq<FieldType>, raw: nat, cast: real -> int)
    requires Fits(outs, types) && AllParsed(preds, types)
    requires SingleEq(preds) && types[preds[0].field].Int32? && raw < 0x1_0000_0000
    ensures var s, row := OneRow(types, raw), ShownRow(types, raw);
            && Typed([s], types) && Decodes(s, types) && Wide([row], types) && row[preds[0].field] == Fixed(raw)
            && AllValues([s], types) == [row]
            && !HidesText(preds, outs, types, s)
            && ScanFinds(preds, outs, types, [s], cast) == Found(ConvertedPreds(preds, types, false, cast), outs, types, [row])
  {
    hide FirstRows, SeenRows, Readable, Found, ConvertedPreds, Decodes;
    PlainRowsSeen(OneRow(types, raw));
    var s, row := OneRow(types, raw), ShownRow(types, raw);
    OneRowReads(types, raw, preds[0].field);
    OneRowFinite(types, raw);
    NoValues(types);
    AllValuesLast([], s, types);
    assert [] + [s] == [s] && [s][..0] == [] && [] + [row] == [row];
    assert FirstRows(s, 1) == [row];
    assert ScanFinds(preds, outs, types, [s][..0], cast) == [];
  }

  /** A plain segment is seen as it is. */
  lemma PlainRowsSeen(s: ScanSegment)
    ensures Readable(s) && !s.compressed ==> SeenRows(s, false) == FirstRows(s, s.rowCount)
  {
    hide WellFormed, ValueAt, Byteless;
    if Readable(s) && !s.compressed {
      forall r | 0 <= r < s.rowCount
        ensures SeenRow(s, r, false) == FullRow(s, r)
      {
      }
    }
  }

  /** A constant that int32_t cannot hold: the machine's conversion of it is found in a plain segment. */
  lemma {:induction false} MisfitIsFound(preds: seq<Predicate>, outs: seq<Output>, types: seq<FieldType>, cast: real -> int)
    requires Fits(outs, types) && AllParsed(preds, types) && IsCast(cast)
    requires SingleEq(preds) && !Narrows(types[preds[0].field], preds[0].value)
    ensures exists s :: Typed([s], types) && Decodes(s, types) && HidesNoText(preds, outs, types, [s]) &&
                        ScanFinds(preds, outs, types, [s], cast) != Found(preds, outs, types, AllValues([s], types))
  {
    hide ScanFinds, Found, AllValues, Decodes, Readable, FirstRows, OneRow, Satisfies, HidesText;
    var p, n := preds[0], cast(preds[0].value);
    var raw := if n >= 0 then n else n + 0x1_0000_0000;
    var s, row := OneRow(types, raw), ShownRow(types, raw);
    OneRowScan(preds, outs, types, raw, cast);
    OneFound(preds, outs, types, row);
    OneFound(ConvertedPreds(preds, types, false, cast), outs, types, row);
    WrongMatch(raw, n, p.value);
    assert Qualifies(ConvertedPreds(preds, types, false, cast), types, row) && !Qualifies(preds, types, row);
  }

  lemma WrongMatch(raw: nat, n: int, value: real)
    requires -2147483648 <= n <= 2147483647 && raw == (if n >= 0 then n else n + 0x1_0000_0000)
    requires !(-2147483648.0 <= value <= 2147483647.0)
    ensures Satisfies(Fixed(raw), Int32, Eq, n as real) && !Satisfies(Fixed(raw), Int32, Eq, value)
  {
  }

  lemma OneRowFinite(types: seq<FieldType>, raw: nat)
    requires raw < 0x1_0000_0000
    ensures Readable(OneRow(types, raw)) ==> Decodes(OneRow(types, raw), types)
  {
    assert Exponent(raw) == 0;
  }

  lemma OneFound(preds: seq<Predicate>, outs: seq<Output>, types: seq<FieldType>, row: ValueRow)
    requires Fits(outs, types) && |row| == |types|
    ensures Wide([row], types)
    ensures Found(preds, outs, types, [row]) == if Qualifies(preds, types, row) then [Project(outs, types, row)] else []
  {
    hide Qualifies, Project;
    assert [row][..0] == [];
  }

  /**
   In the tables in which it hides no text, the extension's scan finds what the
   Python loop finds exactly when the constant of a single equality on an int32
   column fits int32_t. Segments of plain columns are not pruned here.
   */
  lemma ScanAgreesExactly(preds: seq<Predicate>, outs: seq<Output>, types: seq<FieldType>, cast: real -> int)
    requires Fits(outs, types) && AllParsed(preds, types) && IsCast(cast)
    ensures (forall segments :: Typed(segments, types) && (forall i :: 0 <= i < |segments| ==> Decodes(segments[i], types)) &&
                                HidesNoText(preds, outs, types, segments) ==>
               ScanFinds(preds, outs, types, segments, cast) == Found(preds, outs, types, AllValues(segments, types)))
            <==> (SingleEq(preds) ==> Narrows(types[preds[0].field], preds[0].value))
  {
    hide ScanFinds, Found, AllValues, Decodes, Narrows, IsCast, Readable, HidesNoText;
    if SingleEq(preds) ==> Narrows(types[preds[0].field], preds[0].value) {
      forall segments | Typed(segments, types) && HidesNoText(preds, outs, types, segments)
        ensures ScanFinds(preds, outs, types, segments, cast) == Found(preds, outs, types, AllValues(segments, types))
      {
        ScanAgreesOnTable(preds, outs, types, segments, cast);
      }
    } else {
      MisfitIsFound(preds, outs, types, cast);
      var s :| Typed([s], types) && Decodes(s, types) && HidesNoText(preds, outs, types, [s]) &&
               ScanFinds(preds, outs, types, [s], cast) != Found(preds, outs, types, AllValues([s], types));
      assert forall i :: 0 <= i < |[s]| ==> Decodes([s][i], types);
    }
  }

  /** A string column of `n` empty texts. */
  function EmptyTexts(n: nat): ColumnView { ColumnView(String, seq(n, i => true), RawTexts(seq(n, i => 0), [])) }

  lemma {:induction false} NoLengths(n: nat, r: nat)
    requires r <= n
    ensures SumTo(seq(n, i => 0), r) == 0
  {
    if r != 0 {
      NoLengths(n, r - 1);
    }
  }

  lemma EmptyTextsRead(n: nat)
    ensures WellFormed(EmptyTexts(n), n) && NullsEmpty(EmptyTexts(n), n) && Byteless(EmptyTexts(n), n)
    ensures forall r :: 0 <= r < n ==> ValueAt(EmptyTexts(n), n, r) == Content([])
  {
    NoLengths(n, n);
    forall r | 0 <= r < n
      ensures ValueAt(EmptyTexts(n), n, r) == Content([])
    {
      NoLengths(n, r);
      NoLengths(n, r + 1);
    }
  }

  lemma {:induction false} EveryRowFound(outs: seq<Output>, types: seq<FieldType>, rows: seq<ValueRow>)
    requires Fits(outs, types) && Wide(rows, types)
    ensures |Found([], outs, types, rows)| == |rows|
    ensures forall r :: 0 <= r < |rows| ==> Found([], outs, types, rows)[r] == Project(outs, types, rows[r])
  {
    hide Project;
    if rows != [] {
      EveryRowFound(outs, types, rows[..|rows| - 1]);
    }
  }

  /** Rows of empty texts in a sealed segment: the extension shows None in every one, the Python loop shows the texts. */
  lemma EmptyTextsExample(n: nat, cast: real -> int)
    ensures var s, types, outs := ScanSegment(true, [EmptyTexts(n)], n, []), [String], [Output(0, String)];
            && Decodes(s, types) && Typed([s], types)
            && var found, reference := ScanFinds([], outs, types, [s], cast), Found([], outs, types, AllValues([s], types));
               && |found| == |reference| == n
               && forall r :: 0 <= r < n ==> found[r] == [Missing] && reference[r] == [Content([])]
  {
    hide WellFormed, ValueAt, NullsEmpty, Byteless, SumTo, Found, AllValues, ScanFinds, Project;
    var s, types, outs := ScanSegment(true, [EmptyTexts(n)], n, []), [String], [Output(0, String)];
    EmptyTextsRead(n);
    EmptyTextsDecode(n);
    assert Decodes(s, types);
    OneSegment(outs, types, s, cast);
    EveryRowFound(outs, types, SeenRows(s, true));
    EveryRowFound(outs, types, FirstRows(s, n));
    forall r | 0 <= r < n
      ensures Project(outs, types, SeenRow(s, r, true)) == [Missing] && Project(outs, types, FullRow(s, r)) == [Content([])]
    {
      ProjectFirst(SeenRow(s, r, true));
      ProjectFirst(FullRow(s, r));
    }
  }

  lemma ProjectFirst(row: ValueRow)
    requires |row| == 1
    ensures Project([Output(0, String)], [String], row) == row
  {
  }

  /** A table of one compressed segment, without predicates. */
  lemma OneSegment(outs: seq<Output>, types: seq<FieldType>, s: ScanSegment, cast: real -> int)
    requires Readable(s) && HasTypes(s, types) && s.compressed && Fits(outs, types)
    ensures Typed([s], types) && AllValues([s], types) == FirstRows(s, s.rowCount)
    ensures Wide(SeenRows(s, true), types)
    ensures ScanFinds([], outs, types, [s], cast) == Found([], outs, types, SeenRows(s, true))
  {
    hide Readable, Found;
    NoValues(types);
    AllValuesLast([], s, types);
    assert [] + [s] == [s] && [s][..0] == [];
    assert ScanFinds([], outs, types, [], cast) == [];
  }

  lemma EmptyTextsDecode(n: nat)
    ensures WellFormed(EmptyTexts(n), n) ==>
              Decodable(EmptyTexts(n), n) && FiniteColumn(EmptyTexts(n), n) && BoolColumn(EmptyTexts(n), n)
  {
  }
}
