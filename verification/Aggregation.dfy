/** The server's aggregate query: one pass over all segments, or the persisted segments divided among threads. */
module Aggregation {
  import opened Table
  import opened Predicates
  import opened Views
  import opened ScanSpec
  import opened ScanTable
  import opened ScanRefinement
  import opened PredicateMask
  import opened SegmentStore
  import opened StoreViews
  import opened Sealing
  import Arithmetic

  /** Sums are exact: the rounding of doubles is not part of this model. */
  datatype Aggregate = Aggregate(count: nat, sum: real, min: real, max: real, hasValue: bool)

  const NOTHING := Aggregate(0, 0.0, 0.0, 0.0, false)

  // ---------- What an aggregate means ----------

  function Sum(xs: seq<real>): real {
    if xs == [] then 0.0 else Sum(xs[..|xs| - 1]) + xs[|xs| - 1]
  }

  /** `a` has the count and the extremes of `xs`. */
  predicate Spans(a: Aggregate, xs: seq<real>) {
    && a.count == |xs| && a.hasValue == (xs != [])
    && (xs != [] ==> a.min in xs && a.max in xs)
    && forall i :: 0 <= i < |xs| ==> a.min <= xs[i] <= a.max
  }

  /** `a` is the aggregate of `xs`. */
  predicate Summarises(a: Aggregate, xs: seq<real>) {
    Spans(a, xs) && a.sum == Sum(xs) && (xs == [] ==> a.min == 0.0 && a.max == 0.0)
  }

  /** There is only one aggregate of `xs`. */
  lemma SummaryUnique(a: Aggregate, b: Aggregate, xs: seq<real>)
    requires Summarises(a, xs) && Summarises(b, xs)
    ensures a == b
  {
  }

  lemma {:induction false} SumConcat(xs: seq<real>, ys: seq<real>)
    ensures Sum(xs + ys) == Sum(xs) + Sum(ys)
  {
    if ys == [] {
      assert xs + ys == xs;
    } else {
      SumConcat(xs, ys[..|ys| - 1]);
      assert (xs + ys)[..|xs + ys| - 1] == xs + ys[..|ys| - 1];
    }
  }

  /** With the concatenation above this leaves no choice for the sum. */
  lemma SumOfOne(x: real)
    ensures Sum([]) == 0.0 && Sum([x]) == x
  {
    assert [x][..0] == [];
  }

  /** The non-null numbers of a column in the rows that satisfy every predicate, in order. */
  ghost function Selected(preds: seq<Predicate>, types: seq<FieldType>, field: nat, rows: seq<ValueRow>): seq<real>
    requires Wide(rows, types) && field < |types|
  {
    if rows == [] then []
    else
      var last := rows[|rows| - 1];
      Selected(preds, types, field, rows[..|rows| - 1]) +
      if Qualifies(preds, types, last) && last[field].Fixed? then [NumberOf(types[field], last[field].raw)] else []
  }

  lemma {:induction false} SelectedConcat(preds: seq<Predicate>, types: seq<FieldType>, field: nat,
                                         a: seq<ValueRow>, b: seq<ValueRow>)
    requires Wide(a, types) && Wide(b, types) && field < |types|
    ensures Wide(a + b, types)
    ensures Selected(preds, types, field, a + b) == Selected(preds, types, field, a) + Selected(preds, types, field, b)
  {
    if b == [] {
      assert a + b == a;
    } else {
      SelectedConcat(preds, types, field, a, b[..|b| - 1]);
      assert (a + b)[..|a + b| - 1] == a + b[..|b| - 1];
    }
  }

  // ---------- Accumulating and merging ----------

  /** One step of the loops of AggregateMixed. */
  method Accumulate(a: Aggregate, value: real, ghost xs: seq<real>) returns (a': Aggregate)
    requires Summarises(a, xs)
    ensures Summarises(a', xs + [value])
  {
    ghost var ys := xs + [value];
    assert ys[..|xs|] == xs && ys[|xs|] == value;
    assert forall x :: x in xs ==> x in ys;
    a' := a.(sum := a.sum + value);
    if !a'.hasValue {
      a' := a'.(min := value, max := value, hasValue := true);
    } else {
      if value < a'.min {
        a' := a'.(min := value);
      }
      if value > a'.max {
        a' := a'.(max := value);
      }
    }
    a' := a'.(count := a'.count + 1);
  }

  method AggregateMixed(c: ColumnView, n: nat, mask: seq<bool>, ghost preds: seq<Predicate>, ghost types: seq<FieldType>,
                        ghost field: nat, ghost rows: seq<ValueRow>)
      returns (a: Aggregate)
    requires WellFormed(c, n) && !IsLz4(c) && IsNumeric(c.ftype) && |mask| == n == |rows|
    requires Wide(rows, types) && field < |types| && c.ftype == types[field]
    requires forall r :: 0 <= r < n ==> (mask[r] <==> Qualifies(preds, types, rows[r]))
    requires forall r :: 0 <= r < n ==> ValueAt(c, n, r) == rows[r][field]
    ensures Summarises(a, Selected(preds, types, field, rows))
  {
    hide WellFormed, ValueAt, Qualifies, NumberOf, Summarises;
    a := NOTHING;
    NothingSummarised();
    for r := 0 to n
      invariant Summarises(a, Selected(preds, types, field, rows[..r]))
    {
      assert rows[..r + 1][..r] == rows[..r];
      ghost var before := Selected(preds, types, field, rows[..r]);
      if mask[r] {
        var v := FieldValue(c, n, r);
        if v.Fixed? {
          a := Accumulate(a, NumberOf(c.ftype, v.raw), before);
        }
      }
      assert before + [] == before;
    }
    assert rows[..n] == rows;
  }

  lemma NothingSummarised()
    ensures Summarises(NOTHING, [])
  {
  }

  /** Adds the aggregate `src` to `dst`. */
  method MergeAggregate(src: Aggregate, dst: Aggregate, ghost xs: seq<real>, ghost ys: seq<real>) returns (r: Aggregate)
    requires Summarises(dst, xs) && Summarises(src, ys)
    ensures Summarises(r, xs + ys)
  {
    hide Sum;
    SumConcat(xs, ys);
    assert forall x :: x in xs || x in ys ==> x in xs + ys;
    r := dst;
    if !r.hasValue && src.hasValue {
      r := r.(min := src.min, max := src.max, hasValue := true);
    } else if src.hasValue {
      if src.min < r.min {
        r := r.(min := src.min);
      }
      if src.max > r.max {
        r := r.(max := src.max);
      }
    }
    r := r.(count := r.count + src.count, sum := r.sum + src.sum);
  }

  // ---------- The ranges of the threads ----------

  /** Where the range of thread `t` of `n` starts; it ends where the next one starts. */
  function RangeStart(p: nat, n: nat, t: nat): nat
    requires n > 0
  {
    (p * t) / n
  }

  lemma RangeGrows(p: nat, n: nat, t: nat)
    requires n > 0 && t < n
    ensures RangeStart(p, n, t) <= RangeStart(p, n, t + 1) <= p
  {
    Arithmetic.Distribute(p, t, 1);
    Arithmetic.QuotientMonotone(p * t, p * (t + 1), n);
    Arithmetic.ProductMonotone(p, t + 1, n);
    Arithmetic.QuotientMonotone(p * (t + 1), p * n, n);
    Arithmetic.ExactQuotient(p, n);
  }

  lemma RangeEnds(p: nat, n: nat)
    requires n > 0
    ensures RangeStart(p, n, 0) == 0 && RangeStart(p, n, n) == p
  {
    Arithmetic.ExactQuotient(p, n);
    Arithmetic.ExactQuotient(0, n);
  }

  lemma {:induction false} RangesOrdered(p: nat, n: nat, t: nat, u: nat)
    requires n > 0 && t <= u <= n
    ensures RangeStart(p, n, t) <= RangeStart(p, n, u)
    decreases u - t
  {
    hide RangeStart;
    if t < u {
      RangesOrdered(p, n, t, u - 1);
      RangeGrows(p, n, u - 1);
    }
  }

  ghost predicate InRangeOf(p: nat, n: nat, t: nat, i: nat)
    requires n > 0
  {
    RangeStart(p, n, t) <= i < RangeStart(p, n, t + 1)
  }

  /** Every persisted segment belongs to exactly one thread. */
  lemma RangesPartition(p: nat, n: nat, i: nat)
    requires n > 0
    ensures i < p <==> exists t :: 0 <= t < n && InRangeOf(p, n, t, i)
    ensures forall t, u :: 0 <= t < n && 0 <= u < n && InRangeOf(p, n, t, i) && InRangeOf(p, n, u, i) ==> t == u
  {
    hide RangeStart;
    RangeEnds(p, n);
    if i < p {
      var t := 0;
      while RangeStart(p, n, t + 1) <= i
        invariant t < n && RangeStart(p, n, t) <= i
        decreases n - t
      {
        RangeGrows(p, n, t);
        t := t + 1;
      }
      assert InRangeOf(p, n, t, i);
    }
    forall t | 0 <= t < n && InRangeOf(p, n, t, i)
      ensures i < p
    {
      RangeGrows(p, n, t);
    }
    forall t, u | 0 <= t < n && 0 <= u < n && InRangeOf(p, n, t, i) && InRangeOf(p, n, u, i)
      ensures t == u
    {
      if t < u {
        RangesOrdered(p, n, t + 1, u);
      } else if u < t {
        RangesOrdered(p, n, u + 1, t);
      }
    }
  }

  // ---------- One segment, and a range of segments ----------

  /** No float is an infinity or NaN. */
  predicate FiniteCells(f: FieldVector) {
    forall r :: 0 <= r < |f.cells| ==> IsFinite(ValueOf(f.cells[r]), f.ftype)
  }

  /** A segment of the table whose columns a query can read. */
  predicate Queryable(s: Segment, types: seq<FieldType>) {
    && ValidSegment(s) && MatchesSchema(s, types)
    && forall c :: 0 <= c < |s.fields| ==> CellsFit(s.fields[c]) && FiniteCells(s.fields[c])
  }

  ghost predicate AllQueryable(segments: seq<Segment>, types: seq<FieldType>) {
    forall i :: 0 <= i < |segments| ==> Queryable(segments[i], types)
  }

  lemma RowsWide(segments: seq<Segment>, types: seq<FieldType>)
    requires AllQueryable(segments, types)
    ensures forall s :: s in segments ==> ValidSegment(s)
    ensures Wide(ShownRows(AllRows(segments)), types)
  {
    if segments != [] {
      RowsWide(segments[1..], types);
      ShownConcat(SegmentRows(segments[0]), AllRows(segments[1..]));
    }
  }

  /** The numbers that a query aggregates over a list of segments. */
  ghost function SegmentNumbers(preds: seq<Predicate>, types: seq<FieldType>, field: nat, segments: seq<Segment>): seq<real>
    requires AllQueryable(segments, types) && field < |types|
  {
    RowsWide(segments, types);
    Selected(preds, types, field, ShownRows(AllRows(segments)))
  }

  lemma SegmentNumbersConcat(preds: seq<Predicate>, types: seq<FieldType>, field: nat, a: seq<Segment>, b: seq<Segment>)
    requires AllQueryable(a, types) && AllQueryable(b, types) && field < |types|
    ensures AllQueryable(a + b, types)
    ensures SegmentNumbers(preds, types, field, a + b) ==
            SegmentNumbers(preds, types, field, a) + SegmentNumbers(preds, types, field, b)
  {
    hide AllRows, Selected, Queryable;
    RowsWide(a, types);
    RowsWide(b, types);
    AllRowsConcat(a, b);
    ShownConcat(AllRows(a), AllRows(b));
    SelectedConcat(preds, types, field, ShownRows(AllRows(a)), ShownRows(AllRows(b)));
  }

  // ---------- Columns without their storage ----------

  /**
   The query reads the plain storage of every column that it names. Where a
   column has given up that storage, the first value that is there is read
   through a null pointer.
   */
  datatype Status = Done | Refused | Crashed

  /** Some row that satisfies the predicates has a value in column `c`. */
  ghost predicate Touches(preds: seq<Predicate>, types: seq<FieldType>, c: nat, rows: seq<ValueRow>)
    requires Wide(rows, types) && c < |types|
  {
    exists r :: 0 <= r < |rows| && Qualifies(preds, types, rows[r]) && rows[r][c] != Missing
  }

  /** The predicate `k` is evaluated on a value of a column without storage. */
  ghost predicate PredicateFaults(preds: seq<Predicate>, types: seq<FieldType>, rows: seq<ValueRow>, released: seq<bool>, k: nat)
    requires Wide(rows, types) && |released| == |types| && k < |preds|
  {
    InRange(preds[..k + 1], |types|) && released[preds[k].field] && Touches(preds[..k], types, preds[k].field, rows)
  }

  /** The query reads a value of a column without storage. */
  ghost predicate Faults(preds: seq<Predicate>, types: seq<FieldType>, field: nat, rows: seq<ValueRow>, released: seq<bool>)
    requires Wide(rows, types) && |released| == |types| && field < |types|
  {
    || (exists k :: 0 <= k < |preds| && PredicateFaults(preds, types, rows, released, k))
    || (InRange(preds, |types|) && released[field] && Touches(preds, types, field, rows))
  }

  /** A segment in which the columns that the query names have their storage cannot crash it. */
  lemma StoredColumnsNeverFault(preds: seq<Predicate>, types: seq<FieldType>, field: nat, rows: seq<ValueRow>,
                                released: seq<bool>)
    requires Wide(rows, types) && |released| == |types| && field < |types| && !released[field]
    requires forall k :: 0 <= k < |preds| && preds[k].field < |types| ==> !released[preds[k].field]
    ensures !Faults(preds, types, field, rows, released)
  {
    hide Touches;
    forall k | 0 <= k < |preds|
      ensures !PredicateFaults(preds, types, rows, released, k)
    {
      assert InRange(preds[..k + 1], |types|) ==> preds[..k + 1][k].field < |types|;
    }
  }

  /** Reading a column in the rows of a mask. */
  method ReadColumn(c: ColumnView, n: nat, mask: seq<bool>, released: bool, ghost preds: seq<Predicate>,
                    ghost types: seq<FieldType>, ghost field: nat, ghost rows: seq<ValueRow>)
      returns (crashed: bool)
    requires WellFormed(c, n) && |mask| == n == |rows| && Wide(rows, types) && field < |types|
    requires forall r :: 0 <= r < n ==> (mask[r] <==> Qualifies(preds, types, rows[r]))
    requires forall r :: 0 <= r < n ==> ValueAt(c, n, r) == rows[r][field]
    ensures crashed <==> released && Touches(preds, types, field, rows)
  {
    hide Qualifies, Unpacked;
    crashed := false;
    for r := 0 to n
      invariant crashed <==> released && exists j :: 0 <= j < r && Qualifies(preds, types, rows[j]) && rows[j][field] != Missing
    {
      ValidIsThere(c, n, r);
      if mask[r] && c.valid[r] && released {
        crashed := true;
      }
    }
  }

  lemma ValidIsThere(c: ColumnView, n: nat, r: nat)
    requires WellFormed(c, n) && r < n
    ensures c.valid[r] <==> ValueAt(c, n, r) != Missing
  {
  }

  /** BuildPredicateMask over the plain storage of a segment. */
  method MaskOfSegment(preds: seq<Predicate>, types: seq<FieldType>, v: ScanSegment, released: seq<bool>)
      returns (status: Status, mask: seq<bool>)
    requires Readable(v) && !v.compressed && HasTypes(v, types) && |released| == |types|
    ensures Wide(FirstRows(v, v.rowCount), types)
    ensures var rows := FirstRows(v, v.rowCount);
            && (status == Crashed <==> exists k :: 0 <= k < |preds| && PredicateFaults(preds, types, rows, released, k))
            && (status == Refused ==> !InRange(preds, |types|))
            && (status == Done ==> InRange(preds, |types|) && |mask| == v.rowCount)
            && (status == Done ==> forall r :: 0 <= r < v.rowCount ==> (mask[r] <==> Matches(preds, v, r)))
  {
    hide Readable, ValueAt, Satisfies, Matches, Touches, FullRow;
    ghost var rows := FirstRows(v, v.rowCount);
    FirstRowsWide(v, types);
    mask := seq(v.rowCount, i => true);
    EveryRowMatches(preds, v);
    for k := 0 to |preds|
      invariant |mask| == v.rowCount && InRange(preds[..k], |types|)
      invariant forall j :: 0 <= j < k ==> !PredicateFaults(preds, types, rows, released, j)
      invariant forall r :: 0 <= r < v.rowCount ==> (mask[r] <==> Matches(preds[..k], v, r))
    {
      var field := preds[k].field;
      if field >= |types| {
        LaterNeverFault(preds, types, rows, released, k);
        return Refused, mask;
      }
      assert preds[..k + 1] == preds[..k] + [preds[k]];
      MaskQualifies(preds[..k], types, v, mask);
      ColumnReadable(v, field);
      var crashed := ReadColumn(v.columns[field], v.rowCount, mask, released[field], preds[..k], types, field, rows);
      if crashed {
        assert PredicateFaults(preds, types, rows, released, k);
        return Crashed, mask;
      }
      mask := ApplyPredicate(preds, v, k, mask);
    }
    assert preds[..|preds|] == preds;
    status := Done;
  }

  lemma EveryRowMatches(preds: seq<Predicate>, v: ScanSegment)
    requires Readable(v)
    ensures forall r :: 0 <= r < v.rowCount ==> Matches(preds[..0], v, r)
  {
  }

  lemma FirstRowsWide(v: ScanSegment, types: seq<FieldType>)
    requires Readable(v) && HasTypes(v, types)
    ensures Wide(FirstRows(v, v.rowCount), types)
  {
    hide Readable, FullRow;
  }

  /** Behind a predicate that names no column nothing is evaluated. */
  lemma LaterNeverFault(preds: seq<Predicate>, types: seq<FieldType>, rows: seq<ValueRow>, released: seq<bool>, k: nat)
    requires Wide(rows, types) && |released| == |types| && k < |preds| && preds[k].field >= |types|
    ensures forall j :: k <= j < |preds| ==> !PredicateFaults(preds, types, rows, released, j)
    ensures !InRange(preds, |types|)
  {
    hide Touches;
    forall j | k <= j < |preds|
      ensures !PredicateFaults(preds, types, rows, released, j)
    {
      assert preds[..j + 1][k] == preds[k];
    }
  }

  /** The rows of one segment, as the query sees them. */
  function RowsOfSegment(s: Segment): seq<ValueRow>
    requires ValidSegment(s)
  {
    ShownRows(SegmentRows(s))
  }

  lemma SegmentWide(s: Segment, types: seq<FieldType>)
    requires ValidSegment(s) && MatchesSchema(s, types)
    ensures Wide(RowsOfSegment(s), types)
  {
  }

  ghost predicate SegmentFaults(preds: seq<Predicate>, types: seq<FieldType>, field: nat, s: Segment, released: seq<bool>)
    requires Queryable(s, types) && |released| == |types| && field < |types|
  {
    SegmentWide(s, types);
    Faults(preds, types, field, RowsOfSegment(s), released)
  }

  /** One segment, of which the columns `released` have no plain storage. */
  method AggregateSegment(preds: seq<Predicate>, types: seq<FieldType>, field: nat, s: Segment, released: seq<bool>)
      returns (status: Status, partial: Aggregate)
    requires Queryable(s, types) && field < |types| && IsNumeric(types[field]) && |released| == |types|
    ensures status == Crashed <==> SegmentFaults(preds, types, field, s, released)
    ensures status == Refused ==> !InRange(preds, |types|)
    ensures status == Done ==> InRange(preds, |types|) && AllQueryable([s], types) &&
                               Summarises(partial, SegmentNumbers(preds, types, field, [s]))
  {
    hide Readable, ValueAt, Satisfies, Summarises, Selected, AllRows, Presents, PredicateFaults, Touches;
    var v := PlainSegment(s);
    RowsPresented(v, s, types);
    AllRowsSingle(s);
    RowsWide([s], types);
    var mask;
    status, mask := MaskOfSegment(preds, types, v, released);
    if status != Done {
      return status, NOTHING;
    }
    ghost var rows := FirstRows(v, v.rowCount);
    MaskQualifies(preds, types, v, mask);
    ColumnReadable(v, field);
    var crashed := ReadColumn(v.columns[field], v.rowCount, mask, released[field], preds, types, field, rows);
    if crashed {
      return Crashed, NOTHING;
    }
    partial := AggregateMixed(v.columns[field], v.rowCount, mask, preds, types, field, rows);
  }

  lemma MaskQualifies(preds: seq<Predicate>, types: seq<FieldType>, v: ScanSegment, mask: seq<bool>)
    requires Readable(v) && HasTypes(v, types) && |mask| == v.rowCount
    requires forall r :: 0 <= r < v.rowCount ==> (mask[r] <==> Matches(preds, v, r))
    ensures forall r :: 0 <= r < v.rowCount ==> (mask[r] <==> Qualifies(preds, types, FirstRows(v, v.rowCount)[r]))
  {
    hide Readable, ValueAt, Satisfies;
  }

  lemma ColumnReadable(v: ScanSegment, field: nat)
    requires Readable(v) && field < |v.columns|
    ensures WellFormed(v.columns[field], v.rowCount) && (!v.compressed ==> !IsLz4(v.columns[field]))
    ensures forall r :: 0 <= r < v.rowCount ==>
              ValueAt(v.columns[field], v.rowCount, r) == FirstRows(v, v.rowCount)[r][field]
  {
    hide WellFormed, ValueAt;
  }

  /** Some of the segments crashes the query. */
  ghost predicate SomeFault(preds: seq<Predicate>, types: seq<FieldType>, field: nat, segments: seq<Segment>,
                            released: seq<seq<bool>>)
    requires AllQueryable(segments, types) && field < |types| && |released| == |segments|
    requires forall i :: 0 <= i < |released| ==> |released[i]| == |types|
  {
    exists i :: 0 <= i < |segments| && SegmentFaults(preds, types, field, segments[i], released[i])
  }

  /** A list of segments, visited in order. */
  method AggregateSegments(preds: seq<Predicate>, types: seq<FieldType>, field: nat, segments: seq<Segment>,
                           released: seq<seq<bool>>)
      returns (status: Status, result: Aggregate)
    requires AllQueryable(segments, types) && field < |types| && IsNumeric(types[field])
    requires |released| == |segments| && forall i :: 0 <= i < |released| ==> |released[i]| == |types|
    ensures status == Crashed ==> SomeFault(preds, types, field, segments, released)
    ensures status == Refused ==> !InRange(preds, |types|)
    ensures status == Done ==> !SomeFault(preds, types, field, segments, released)
    ensures status == Done && segments != [] ==> InRange(preds, |types|)
    ensures status == Done ==> Summarises(result, SegmentNumbers(preds, types, field, segments))
  {
    hide Queryable, InRange, Summarises, SegmentNumbers, SegmentFaults;
    result, status := NOTHING, Done;
    NoSegmentNumbers(preds, types, field);
    NothingSummarised();
    for i := 0 to |segments|
      invariant status == Done && (i > 0 ==> InRange(preds, |types|))
      invariant AllQueryable(segments[..i], types)
      invariant forall j :: 0 <= j < i ==> !SegmentFaults(preds, types, field, segments[j], released[j])
      invariant Summarises(result, SegmentNumbers(preds, types, field, segments[..i]))
    {
      var partial;
      status, partial := AggregateSegment(preds, types, field, segments[i], released[i]);
      if status != Done {
        return;
      }
      assert segments[..i + 1] == segments[..i] + [segments[i]];
      SegmentNumbersConcat(preds, types, field, segments[..i], [segments[i]]);
      result := MergeAggregate(partial, result, SegmentNumbers(preds, types, field, segments[..i]),
                               SegmentNumbers(preds, types, field, [segments[i]]));
    }
    assert segments[..|segments|] == segments;
  }

  lemma NoSegmentNumbers(preds: seq<Predicate>, types: seq<FieldType>, field: nat)
    requires field < |types|
    ensures SegmentNumbers(preds, types, field, []) == []
  {
  }

  // ---------- The query ----------

  /** Every row of the table can be read by a query. */
  ghost predicate TableQueryable(state: DatasetState)
    reads state, state.dataset
  {
    AllQueryable(state.Sealed, state.dataset.types) && AllQueryable(state.ActiveSegments(), state.dataset.types)
  }

  /** As many threads as configured, but no more than there are segments, and always one. */
  function ThreadCount(queryThreads: nat, persisted: nat): (n: nat)
    ensures n == 1 <==> queryThreads <= 1 || persisted <= 1
    ensures n != 1 ==> 1 < n <= queryThreads && n <= persisted && (n == queryThreads || n == persisted)
  {
    var n := if queryThreads == 0 then 1 else queryThreads;
    if n <= persisted then n else if persisted == 0 then 1 else persisted
  }

  /** The columns of segment `idx` that have no plain storage, where a reader finds them. */
  function ReleasedColumns(state: DatasetState, idx: nat): (r: seq<bool>)
    reads state, state.dataset
    ensures |r| == |state.dataset.types|
    ensures forall c :: 0 <= c < |r| ==> r[c] == state.Released(idx, c)
  {
    seq(|state.dataset.types|, c requires 0 <= c < |state.dataset.types| reads state, state.dataset => state.Released(idx, c))
  }

  /** The query crashes on the persisted segment `idx`. */
  ghost predicate FaultAt(state: DatasetState, preds: seq<Predicate>, field: nat, idx: nat)
    requires TableQueryable(state) && idx < |state.Sealed| && field < |state.dataset.types|
    reads state, state.dataset
  {
    SegmentFaults(preds, state.dataset.types, field, state.Sealed[idx], ReleasedColumns(state, idx))
  }

  method ReadSegment(state: DatasetState, idx: nat) returns (ok: bool, segment: Segment)
    requires state.Valid() && idx < state.persistedSegments
    ensures ok && segment == state.Sealed[idx]
  {
    var base := state.segmentBaseIndex;
    if base <= idx < base + |state.dataset.segments| {
      return true, state.dataset.segments[idx - base];
    }
    assert state.Sealed[..state.persistedSegments][idx] == state.Sealed[idx];
    return true, state.disk[idx].segment;
  }

  /** The work of one thread. */
  method AggregateRange(state: DatasetState, preds: seq<Predicate>, field: nat, start: nat, end: nat)
      returns (status: Status, local: Aggregate)
    requires state.Valid() && TableQueryable(state) && start <= end <= state.persistedSegments <= |state.Sealed|
    requires field < |state.dataset.types| && IsNumeric(state.dataset.types[field])
    ensures status == Crashed ==> exists idx :: start <= idx < end && FaultAt(state, preds, field, idx)
    ensures status == Refused ==> !InRange(preds, |state.dataset.types|)
    ensures status == Done ==> forall idx :: start <= idx < end ==> !FaultAt(state, preds, field, idx)
    ensures status == Done && start < end ==> InRange(preds, |state.dataset.types|)
    ensures status == Done ==> Summarises(local, SegmentNumbers(preds, state.dataset.types, field, state.Sealed[start..end]))
  {
    hide DatasetState.Valid, DatasetState.Released, Queryable, SegmentFaults, InRange, Summarises, SegmentNumbers;
    var segments, released := SegmentsOf(state, start, end);
    status, local := AggregateSegments(preds, state.dataset.types, field, segments, released);
    FaultsOfRange(state, preds, field, start, end, released);
  }

  /** The persisted segments of a range, and for each the columns without storage. */
  method SegmentsOf(state: DatasetState, start: nat, end: nat) returns (segments: seq<Segment>, released: seq<seq<bool>>)
    requires state.Valid() && start <= end <= state.persistedSegments <= |state.Sealed|
    ensures segments == state.Sealed[start..end] && |released| == end - start
    ensures forall i :: 0 <= i < |released| ==> |released[i]| == |state.dataset.types|
    ensures forall i :: 0 <= i < |released| ==> released[i] == ReleasedColumns(state, start + i)
  {
    hide DatasetState.Valid, DatasetState.Released;
    segments, released := [], [];
    for idx := start to end
      invariant segments == state.Sealed[start..idx] && |released| == idx - start
      invariant forall i :: 0 <= i < |released| ==> |released[i]| == |state.dataset.types|
      invariant forall i :: 0 <= i < |released| ==> released[i] == ReleasedColumns(state, start + i)
    {
      var ok, segment := ReadSegment(state, idx);
      segments, released := segments + [segment], released + [ReleasedColumns(state, idx)];
    }
  }

  /** A range of segments crashes the query exactly when one of them does. */
  lemma FaultsOfRange(state: DatasetState, preds: seq<Predicate>, field: nat, start: nat, end: nat, released: seq<seq<bool>>)
    requires TableQueryable(state) && start <= end <= |state.Sealed| && field < |state.dataset.types|
    requires |released| == end - start && forall i :: 0 <= i < |released| ==> |released[i]| == |state.dataset.types|
    requires forall i :: 0 <= i < |released| ==> released[i] == ReleasedColumns(state, start + i)
    ensures AllQueryable(state.Sealed[start..end], state.dataset.types)
    ensures SomeFault(preds, state.dataset.types, field, state.Sealed[start..end], released) <==>
            exists idx :: start <= idx < end && FaultAt(state, preds, field, idx)
  {
    hide Queryable, SegmentFaults;
    var segments := state.Sealed[start..end];
    forall i | 0 <= i < |segments|
      ensures FaultAt(state, preds, field, start + i) <==>
              SegmentFaults(preds, state.dataset.types, field, segments[i], released[i])
    {
    }
    if idx :| start <= idx < end && FaultAt(state, preds, field, idx) {
      assert SegmentFaults(preds, state.dataset.types, field, segments[idx - start], released[idx - start]);
    }
  }

  /** What thread `t` of `n` computes over the first `p` segments. */
  ghost predicate PartialOf(a: Aggregate, preds: seq<Predicate>, types: seq<FieldType>, field: nat,
                            segments: seq<Segment>, n: nat, t: nat)
    requires AllQueryable(segments, types) && field < |types| && n > 0
  {
    && RangeStart(|segments|, n, t) <= RangeStart(|segments|, n, t + 1) <= |segments|
    && Summarises(a, SegmentNumbers(preds, types, field,
                                    segments[RangeStart(|segments|, n, t)..RangeStart(|segments|, n, t + 1)]))
  }

  method RunThreads(state: DatasetState, preds: seq<Predicate>, field: nat, n: nat, ghost queryThreads: nat)
      returns (status: Status, partials: seq<Aggregate>)
    requires state.Valid() && TableQueryable(state) && 1 < n <= state.persistedSegments <= |state.Sealed|
    requires n <= queryThreads && (n == queryThreads || n == state.persistedSegments)
    requires field < |state.dataset.types| && IsNumeric(state.dataset.types[field])
    ensures status == Crashed ==> exists idx :: 0 <= idx < state.persistedSegments && FaultAt(state, preds, field, idx)
    ensures status == Refused ==> !InRange(preds, |state.dataset.types|)
    ensures status == Done ==> InRange(preds, |state.dataset.types|) && |partials| == n
    ensures status == Done ==> forall idx :: 0 <= idx < state.persistedSegments ==> !FaultAt(state, preds, field, idx)
    ensures status == Done ==> forall t :: 0 <= t < n ==>
              PartialOf(partials[t], preds, state.dataset.types, field, state.Sealed[..state.persistedSegments], n, t)
  {
    hide DatasetState.Valid, Queryable, InRange, RangeStart, Summarises, SegmentNumbers, FaultAt;
    var p := state.persistedSegments;
    partials, status := [], Done;
    RangeEnds(p, n);
    for t := 0 to n
      invariant |partials| == t && RangeStart(p, n, t) <= p
      invariant RangeStart(p, n, t) > 0 ==> InRange(preds, |state.dataset.types|)
      invariant forall idx :: 0 <= idx < RangeStart(p, n, t) ==> !FaultAt(state, preds, field, idx)
      invariant forall u :: 0 <= u < t ==>
                  PartialOf(partials[u], preds, state.dataset.types, field, state.Sealed[..p], n, u)
    {
      RangeGrows(p, n, t);
      var local;
      status, local := AggregateRange(state, preds, field, RangeStart(p, n, t), RangeStart(p, n, t + 1));
      if status != Done {
        return;
      }
      assert state.Sealed[..p][RangeStart(p, n, t)..RangeStart(p, n, t + 1)] ==
             state.Sealed[RangeStart(p, n, t)..RangeStart(p, n, t + 1)];
      partials := partials + [local];
    }
    status := Done;
  }

  method MergePartials(partials: seq<Aggregate>, ghost preds: seq<Predicate>, ghost types: seq<FieldType>,
                       ghost field: nat, ghost segments: seq<Segment>)
      returns (result: Aggregate)
    requires AllQueryable(segments, types) && field < |types| && partials != []
    requires forall t :: 0 <= t < |partials| ==>
               PartialOf(partials[t], preds, types, field, segments, |partials|, t)
    ensures Summarises(result, SegmentNumbers(preds, types, field, segments))
  {
    hide Queryable, RangeStart, Summarises, SegmentNumbers;
    ghost var p, n := |segments|, |partials|;
    result := NOTHING;
    NoSegmentNumbers(preds, types, field);
    NothingSummarised();
    RangeEnds(p, n);
    assert segments[..0] == [] && segments[..p] == segments;
    for t := 0 to |partials|
      invariant RangeStart(p, n, t) <= p
      invariant Summarises(result, SegmentNumbers(preds, types, field, segments[..RangeStart(p, n, t)]))
    {
      assert PartialOf(partials[t], preds, types, field, segments, n, t);
      ghost var a, b := RangeStart(p, n, t), RangeStart(p, n, t + 1);
      assert segments[..b] == segments[..a] + segments[a..b];
      SegmentNumbersConcat(preds, types, field, segments[..a], segments[a..b]);
      result := MergeAggregate(partials[t], result, SegmentNumbers(preds, types, field, segments[..a]),
                               SegmentNumbers(preds, types, field, segments[a..b]));
    }
  }

  /** The persisted segments, divided among `n` threads whose results are merged in the order of their ranges. */
  method AggregateThreads(state: DatasetState, preds: seq<Predicate>, field: nat, n: nat, ghost queryThreads: nat)
      returns (status: Status, result: Aggregate)
    requires state.Valid() && TableQueryable(state) && 1 < n <= state.persistedSegments <= |state.Sealed|
    requires n <= queryThreads && (n == queryThreads || n == state.persistedSegments)
    requires field < |state.dataset.types| && IsNumeric(state.dataset.types[field])
    ensures status == Crashed ==> exists idx :: 0 <= idx < state.persistedSegments && FaultAt(state, preds, field, idx)
    ensures status == Refused ==> !InRange(preds, |state.dataset.types|)
    ensures status == Done ==> InRange(preds, |state.dataset.types|)
    ensures status == Done ==> forall idx :: 0 <= idx < state.persistedSegments ==> !FaultAt(state, preds, field, idx)
    ensures status == Done ==>
      Summarises(result, SegmentNumbers(preds, state.dataset.types, field, state.Sealed[..state.persistedSegments]))
  {
    hide DatasetState.Valid, Queryable, InRange, PartialOf, Summarises, SegmentNumbers, FaultAt;
    var partials;
    status, partials := RunThreads(state, preds, field, n, queryThreads);
    if status != Done {
      return status, NOTHING;
    }
    result := MergePartials(partials, preds, state.dataset.types, field, state.Sealed[..state.persistedSegments]);
  }

  /**
   HandleQueryAgg after its parsing. With one configured thread or at most one
   persisted segment the result is the aggregate of one pass over the persisted
   segments and the active rows; otherwise that of the persisted segments alone,
   shared by as many threads as configured or, if there are fewer, one for each
   segment. It is refused exactly for a bad column, unless it crashes, and with
   good columns it crashes exactly when some persisted segment makes it read a
   value of a column that has given up its storage.
   */
  method QueryAggregate(state: DatasetState, preds: seq<Predicate>, field: nat, queryThreads: nat)
      returns (status: Status, result: Aggregate)
    requires state.Valid() && state.dataset.Aligned() && TableQueryable(state) && Sensible(state.policy)
    requires state.persistedSegments <= |state.Sealed|
    requires field < |state.dataset.types| ==> IsNumeric(state.dataset.types[field]) || IsVarlen(state.dataset.types[field])
    ensures var types := state.dataset.types;
            var good := field < |types| && !IsVarlen(types[field]) && InRange(preds, |types|);
            && (status == Refused ==> !good) && (status == Done ==> good)
            && (status == Crashed ==> field < |types| && !IsVarlen(types[field]))
            && (field < |types| && (good || status == Crashed) ==>
                  (status == Crashed <==>
                   exists idx :: 0 <= idx < state.persistedSegments && FaultAt(state, preds, field, idx)))
    ensures status == Done ==>
      var persisted := state.Sealed[..state.persistedSegments];
      var visited := if queryThreads <= 1 || |persisted| <= 1 then persisted + state.ActiveSegments() else persisted;
      AllQueryable(visited, state.dataset.types) && Summarises(result, SegmentNumbers(preds, state.dataset.types, field, visited))
  {
    hide Queryable, InRange, Summarises, SegmentNumbers, FaultAt;
    result := NOTHING;
    if field >= |state.dataset.types| || IsVarlen(state.dataset.types[field]) {
      return Refused, result;
    }
    var p := state.persistedSegments;
    var n := ThreadCount(queryThreads, p);
    if n > 1 && p > 0 {
      status, result := AggregateThreads(state, preds, field, n, queryThreads);
    } else {
      status, result := AggregateAll(state, preds, field);
    }
  }

  /** One pass over everything that ForEachSegment shows. */
  method AggregateAll(state: DatasetState, preds: seq<Predicate>, field: nat) returns (status: Status, result: Aggregate)
    requires state.Valid() && state.dataset.Aligned() && TableQueryable(state) && state.persistedSegments <= |state.Sealed|
    requires field < |state.dataset.types| && IsNumeric(state.dataset.types[field])
    ensures status == Crashed ==> exists idx :: 0 <= idx < state.persistedSegments && FaultAt(state, preds, field, idx)
    ensures status == Refused ==> !InRange(preds, |state.dataset.types|)
    ensures status == Done ==> InRange(preds, |state.dataset.types|)
    ensures status == Done ==> forall idx :: 0 <= idx < state.persistedSegments ==> !FaultAt(state, preds, field, idx)
    ensures status == Done ==>
      var all := state.Sealed[..state.persistedSegments] + state.ActiveSegments();
      AllQueryable(all, state.dataset.types) && Summarises(result, SegmentNumbers(preds, state.dataset.types, field, all))
  {
    hide Queryable, InRange, Summarises, SegmentNumbers, FaultAt, SegmentFaults, DatasetState.Valid;
    var p := state.persistedSegments;
    var ok, visited := state.ForEachSegment();
    EverySegmentVisited(state, ok, visited);
    var released := StorageOf(state, |visited|);
    status, result := AggregateSegments(preds, state.dataset.types, field, visited, released);
    FaultsOfTable(state, preds, field, visited, released);
  }

  /** For each of `n` segments that an enumeration shows, the columns without storage. */
  method StorageOf(state: DatasetState, n: nat) returns (released: seq<seq<bool>>)
    ensures |released| == n && forall i :: 0 <= i < n ==> |released[i]| == |state.dataset.types|
    ensures forall i :: 0 <= i < n ==>
              released[i] == if i < state.persistedSegments then ReleasedColumns(state, i)
                             else NoneReleased(|state.dataset.types|)
  {
    hide DatasetState.Released;
    released := [];
    for i := 0 to n
      invariant |released| == i && forall j :: 0 <= j < i ==> |released[j]| == |state.dataset.types|
      invariant forall j :: 0 <= j < i ==>
                  released[j] == if j < state.persistedSegments then ReleasedColumns(state, j)
                                 else NoneReleased(|state.dataset.types|)
    {
      released := released + [if i < state.persistedSegments then ReleasedColumns(state, i)
                              else NoneReleased(|state.dataset.types|)];
    }
  }

  function NoneReleased(n: nat): (r: seq<bool>)
    ensures |r| == n && forall c :: 0 <= c < n ==> !r[c]
  {
    seq(n, i => false)
  }

  lemma FaultsOfTable(state: DatasetState, preds: seq<Predicate>, field: nat, visited: seq<Segment>, released: seq<seq<bool>>)
    requires TableQueryable(state) && state.persistedSegments <= |state.Sealed| && field < |state.dataset.types|
    requires visited == state.Sealed[..state.persistedSegments] + state.ActiveSegments() && |released| == |visited|
    requires forall i :: 0 <= i < |released| ==> |released[i]| == |state.dataset.types|
    requires forall i :: 0 <= i < |released| ==>
               released[i] == if i < state.persistedSegments then ReleasedColumns(state, i)
                              else NoneReleased(|state.dataset.types|)
    ensures AllQueryable(visited, state.dataset.types)
    ensures SomeFault(preds, state.dataset.types, field, visited, released) <==>
            exists idx :: 0 <= idx < state.persistedSegments && FaultAt(state, preds, field, idx)
  {
    hide Queryable, SegmentFaults;
    var p, types := state.persistedSegments, state.dataset.types;
    forall i | 0 <= i < |visited|
      ensures i < p ==> (FaultAt(state, preds, field, i) <==> SegmentFaults(preds, types, field, visited[i], released[i]))
      ensures Queryable(visited[i], types) && (i >= p ==> !SegmentFaults(preds, types, field, visited[i], released[i]))
    {
      if i >= p {
        assert visited[i] == state.ActiveSegments()[i - p];
        PlainSegmentNeverFaults(preds, types, field, visited[i], released[i]);
      }
    }
    if idx :| 0 <= idx < p && FaultAt(state, preds, field, idx) {
      assert SegmentFaults(preds, types, field, visited[idx], released[idx]);
    }
  }

  lemma PlainSegmentNeverFaults(preds: seq<Predicate>, types: seq<FieldType>, field: nat, s: Segment, released: seq<bool>)
    requires Queryable(s, types) && |released| == |types| && field < |types| && forall c :: 0 <= c < |types| ==> !released[c]
    ensures !SegmentFaults(preds, types, field, s, released)
  {
    hide Faults;
    SegmentWide(s, types);
    StoredColumnsNeverFault(preds, types, field, RowsOfSegment(s), released);
  }

  /** The query names no column of a persisted segment of the window that has given up its storage. */
  predicate NamesStoredColumns(state: DatasetState, preds: seq<Predicate>, field: nat)
    reads state, state.dataset
  {
    forall idx: nat :: idx < state.persistedSegments ==>
      !state.Released(idx, field) && forall k :: 0 <= k < |preds| ==> !state.Released(idx, preds[k].field)
  }

  /** Then it does not crash. */
  lemma StoredColumnsAreSafe(state: DatasetState, preds: seq<Predicate>, field: nat)
    requires TableQueryable(state) && state.persistedSegments <= |state.Sealed| && field < |state.dataset.types|
    requires NamesStoredColumns(state, preds, field)
    ensures forall idx :: 0 <= idx < state.persistedSegments ==> !FaultAt(state, preds, field, idx)
  {
    hide Queryable, Faults, DatasetState.Released;
    forall idx | 0 <= idx < state.persistedSegments
      ensures !FaultAt(state, preds, field, idx)
    {
      var s, types := state.Sealed[idx], state.dataset.types;
      assert Queryable(s, types);
      QueryableShape(s, types);
      SegmentWide(s, types);
      StoredColumnsNeverFault(preds, types, field, RowsOfSegment(s), ReleasedColumns(state, idx));
    }
  }

  lemma QueryableShape(s: Segment, types: seq<FieldType>)
    requires Queryable(s, types)
    ensures ValidSegment(s) && MatchesSchema(s, types)
  {
  }

  /** Without predicates the query crashes on a segment exactly when its target is released and has a value there. */
  lemma TargetFaultsExactly(state: DatasetState, field: nat, idx: nat)
    requires TableQueryable(state) && idx < |state.Sealed| && field < |state.dataset.types|
    ensures field < |state.Sealed[idx].fields|
    ensures FaultAt(state, [], field, idx) <==>
            state.Released(idx, field) && exists r :: 0 <= r < |state.Sealed[idx].fields[field].cells| &&
                                                      state.Sealed[idx].fields[field].cells[r].valid
  {
    var s, types := state.Sealed[idx], state.dataset.types;
    assert Queryable(s, types);
    SegmentWide(s, types);
    var rows := RowsOfSegment(s);
    forall r | 0 <= r < s.rowCount
      ensures rows[r][field] != Missing <==> s.fields[field].cells[r].valid
      ensures Qualifies([], types, rows[r])
    {
      assert SegmentRows(s)[r] == RowAt(s.fields, r, s.rowCount);
    }
  }

  /**
   A table with one int64 column, in whose last window segment all 4096 values
   are the same: under the default configuration an aggregate over it crashes.
   */
  lemma PackedColumnCrashes(state: DatasetState, raw: nat, hash: nat -> int, idx: nat)
    requires state.Valid() && TableQueryable(state) && state.dataset.types == [Int64]
    requires state.policy == Policy(DEFAULTS, hash)
    requires state.recovered <= idx < state.persistedSegments <= |state.Sealed| && state.segmentBaseIndex <= idx
    requires state.Sealed[idx] == Segment([Constant(Int64, raw, 4096)], 4096)
    ensures FaultAt(state, [], 0, idx)
  {
    hide KindOf, FaultAt;
    TargetFaultsExactly(state, 0, idx);
    ConstantIsPacked(raw, hash);
    var f := Constant(Int64, raw, 4096);
    assert f.cells[0].valid;
    assert state.dataset.segments[idx - state.segmentBaseIndex] == state.Sealed[idx];
  }

  lemma EverySegmentVisited(state: DatasetState, ok: bool, visited: seq<Segment>)
    requires state.Valid() && state.dataset.Aligned() && state.dataset.types != []
    requires ok <==> forall idx: nat :: idx < state.persistedSegments ==> state.SegmentAt(idx).Good?
    requires ok ==> Visits(state, visited)
    ensures ok && visited == state.Sealed[..state.persistedSegments] + state.ActiveSegments() && visited != []
  {
    var p := state.persistedSegments;
    forall idx: nat | idx < p
      ensures state.SegmentAt(idx) == Good(state.Sealed[..p][idx])
    {
    }
    VisitedRows(state, state.Sealed[..p], visited);
  }

  /**
   Aggregating with several threads gives the aggregate of the whole table
   exactly when no row outside the persisted segments contributes a number.
   */
  lemma ThreadsMissRows(state: DatasetState, preds: seq<Predicate>, field: nat, threads: Aggregate, whole: Aggregate)
    requires state.Valid() && TableQueryable(state) && field < |state.dataset.types|
    requires var types, p := state.dataset.types, state.persistedSegments;
             && Summarises(threads, SegmentNumbers(preds, types, field, state.Sealed[..p]))
             && AllQueryable(state.Sealed + state.ActiveSegments(), types)
             && Summarises(whole, SegmentNumbers(preds, types, field, state.Sealed + state.ActiveSegments()))
    ensures var types, p := state.dataset.types, state.persistedSegments;
            && AllQueryable(state.Sealed[p..] + state.ActiveSegments(), types)
            && (threads == whole <==>
                SegmentNumbers(preds, types, field, state.Sealed[p..] + state.ActiveSegments()) == [])
  {
    hide Queryable, SegmentNumbers;
    var types, p := state.dataset.types, state.persistedSegments;
    var front, rest := state.Sealed[..p], state.Sealed[p..] + state.ActiveSegments();
    assert state.Sealed + state.ActiveSegments() == front + rest;
    SegmentNumbersConcat(preds, types, field, front, rest);
    if SegmentNumbers(preds, types, field, rest) == [] {
      var xs := SegmentNumbers(preds, types, field, front);
      assert xs + [] == xs;
      SummaryUnique(threads, whole, xs);
    }
  }
}
