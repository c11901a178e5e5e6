/** The segments that a scan visits, their zone maps, and the rows that a scan is meant to find. */
module ScanTable {
  import opened Bytes
  import opened Sequences
  import opened Table
  import opened Predicates
  import opened Views
  import opened ScanSpec

  /** The range of the non-null numbers of a column. */
  datatype ColumnStats = ColumnStats(hasValue: bool, min: real, max: real)

  /**
   A segment is scanned by field (`compressed` false) or by compressed column.
   Only sealed segments have `stats`, one for each column.
   */
  datatype ScanSegment = ScanSegment(compressed: bool, columns: seq<ColumnView>, rowCount: nat, stats: seq<ColumnStats>)

  /** The columns are well formed. In a compressed segment nulls store no bytes. */
  ghost predicate Readable(s: ScanSegment) {
    && (forall i :: 0 <= i < |s.columns| ==> WellFormed(s.columns[i], s.rowCount))
    && (s.compressed ==> forall i :: 0 <= i < |s.columns| ==> NullsEmpty(s.columns[i], s.rowCount))
    && (!s.compressed ==> forall i :: 0 <= i < |s.columns| ==> !IsLz4(s.columns[i]))
  }

  /** The outputs name columns of the segment and have their types. */
  predicate OutputsFit(outs: seq<Output>, columns: seq<ColumnView>) {
    forall i :: 0 <= i < |outs| ==> outs[i].index < |columns| && columns[outs[i].index].ftype == outs[i].ftype
  }

  ghost function RowValues(outs: seq<Output>, s: ScanSegment, r: nat): (row: ValueRow)
    requires Readable(s) && OutputsFit(outs, s.columns) && r < s.rowCount
    ensures |row| == |outs|
  {
    seq(|outs|, i requires 0 <= i < |outs| => ValueAt(s.columns[outs[i].index], s.rowCount, r))
  }

  /** Row `r` satisfies every predicate; a predicate on a column that does not exist fails. */
  ghost predicate Matches(preds: seq<Predicate>, s: ScanSegment, r: nat)
    requires Readable(s) && r < s.rowCount
  {
    forall k :: 0 <= k < |preds| ==>
      preds[k].field < |s.columns| &&
      Satisfies(ValueAt(s.columns[preds[k].field], s.rowCount, r), s.columns[preds[k].field].ftype,
                preds[k].op, preds[k].value)
  }

  /** The first `n` rows of a segment that match, in order. */
  ghost function MatchingUpTo(preds: seq<Predicate>, outs: seq<Output>, s: ScanSegment, n: nat): (rows: seq<ValueRow>)
    requires Readable(s) && OutputsFit(outs, s.columns) && n <= s.rowCount
    ensures RowsFit(outs, rows)
  {
    if n == 0 then []
    else MatchingUpTo(preds, outs, s, n - 1) +
         if Matches(preds, s, n - 1) then [RowValues(outs, s, n - 1)] else []
  }

  ghost function Matching(preds: seq<Predicate>, outs: seq<Output>, s: ScanSegment): (rows: seq<ValueRow>)
    requires Readable(s) && OutputsFit(outs, s.columns)
    ensures RowsFit(outs, rows)
  {
    MatchingUpTo(preds, outs, s, s.rowCount)
  }

  ghost predicate AllReadable(outs: seq<Output>, segments: seq<ScanSegment>) {
    forall i :: 0 <= i < |segments| ==> Readable(segments[i]) && OutputsFit(outs, segments[i].columns)
  }

  /** The matching rows of all segments, in table order. */
  ghost function AllMatching(preds: seq<Predicate>, outs: seq<Output>, segments: seq<ScanSegment>): (rows: seq<ValueRow>)
    requires AllReadable(outs, segments)
    ensures RowsFit(outs, rows)
    decreases segments
  {
    if segments == [] then []
    else Matching(preds, outs, segments[0]) + AllMatching(preds, outs, segments[1..])
  }

  // ---------- Zone maps ----------

  /** The engine's PredicateCanMatchRange behind SegmentMatchesPredicate. */
  predicate SegmentMatchesPredicate(stats: ColumnStats, op: CompareOp, value: real) {
    !stats.hasValue ||
    match op
    case Eq => value >= stats.min && value <= stats.max
    case Ne => stats.min != stats.max || value != stats.min
    case Lt => stats.min < value
    case Le => stats.min <= value
    case Gt => stats.max > value
    case Ge => stats.max >= value
  }

  /** Every number of the column lies in the range. */
  ghost predicate Bounds(stats: ColumnStats, c: ColumnView, n: nat)
    requires WellFormed(c, n)
  {
    forall r :: 0 <= r < n && IsNumeric(c.ftype) && ValueAt(c, n, r).Fixed? ==>
         stats.hasValue && stats.min <= NumberOf(c.ftype, ValueAt(c, n, r).raw) <= stats.max
  }

  /** The zone maps are there where they must be, and they are right. */
  ghost predicate StatsSound(s: ScanSegment)
    requires Readable(s)
  {
    && (s.compressed ==> |s.stats| == |s.columns|)
    && (|s.stats| == |s.columns| ==> forall i :: 0 <= i < |s.columns| ==> Bounds(s.stats[i], s.columns[i], s.rowCount))
  }

  /** A pruned column holds no value that satisfies the predicate. */
  lemma PruningIsSound(stats: ColumnStats, c: ColumnView, n: nat, r: nat, op: CompareOp, value: real)
    requires WellFormed(c, n) && r < n && Bounds(stats, c, n)
    requires !SegmentMatchesPredicate(stats, op, value)
    ensures !Satisfies(ValueAt(c, n, r), c.ftype, op, value)
  {
    hide Double;
    var v := ValueAt(c, n, r);
    if v.Fixed? && IsNumeric(c.ftype) {
      var x := NumberOf(c.ftype, v.raw);
      assert stats.min <= x <= stats.max;
    }
  }

  /** A range is kept exactly when some number in it satisfies the predicate: no range map could exclude more. */
  lemma PruningIsExact(stats: ColumnStats, op: CompareOp, value: real)
    requires stats.hasValue && stats.min <= stats.max
    ensures SegmentMatchesPredicate(stats, op, value) <==>
            exists x :: stats.min <= x <= stats.max && CompareReal(x, value, op)
  {
    if SegmentMatchesPredicate(stats, op, value) {
      var x := match op
        case Eq => value
        case Ne => if stats.min != value then stats.min else stats.max
        case Lt => stats.min
        case Le => stats.min
        case Gt => stats.max
        case Ge => stats.max;
      assert CompareReal(x, value, op);
    }
  }

  lemma {:induction false} AllMatchingLast(preds: seq<Predicate>, outs: seq<Output>, segments: seq<ScanSegment>, s: ScanSegment)
    requires AllReadable(outs, segments) && Readable(s) && OutputsFit(outs, s.columns)
    ensures AllReadable(outs, segments + [s])
    ensures AllMatching(preds, outs, segments + [s]) == AllMatching(preds, outs, segments) + Matching(preds, outs, s)
    decreases segments
  {
    if segments == [] {
      assert [s][1..] == [];
      assert AllMatching(preds, outs, []) == [];
    } else {
      AllMatchingLast(preds, outs, segments[1..], s);
      assert (segments + [s])[1..] == segments[1..] + [s];
      Regroup(Matching(preds, outs, segments[0]), AllMatching(preds, outs, segments[1..]), Matching(preds, outs, s));
    }
  }

  lemma {:induction false} NothingMatches(preds: seq<Predicate>, outs: seq<Output>, s: ScanSegment, n: nat)
    requires Readable(s) && OutputsFit(outs, s.columns) && n <= s.rowCount
    requires forall r :: 0 <= r < n ==> !Matches(preds, s, r)
    ensures MatchingUpTo(preds, outs, s, n) == []
  {
    if n != 0 {
      NothingMatches(preds, outs, s, n - 1);
    }
  }
}
