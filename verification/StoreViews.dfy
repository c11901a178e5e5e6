/** From the segments of the store to the segments that a scan reads. */
module StoreViews {
  import opened Bytes
  import opened Table
  import opened Predicates
  import opened Views
  import opened NumberArrays
  import opened ScanSpec
  import opened ScanTable
  import opened ScanRefinement
  import opened SegmentStore
  import opened Lz4
  import opened Lz4Block

  /** What a row shows to a query. */
  function Shown(row: Row): (v: ValueRow)
    ensures |v| == |row|
  {
    seq(|row|, c requires 0 <= c < |row| => ValueOf(row[c]))
  }

  function ShownRows(rows: seq<Row>): (v: seq<ValueRow>)
    ensures |v| == |rows|
  {
    seq(|rows|, r requires 0 <= r < |rows| => Shown(rows[r]))
  }

  lemma ShownConcat(a: seq<Row>, b: seq<Row>)
    ensures ShownRows(a + b) == ShownRows(a) + ShownRows(b)
  {
  }

  /** A null string stores no bytes. */
  predicate NullsBare(f: FieldVector) {
    IsVarlen(f.ftype) ==> forall r :: 0 <= r < |f.cells| && f.cells[r].Text? && !f.cells[r].valid ==> f.cells[r].bytes == []
  }

  /**
   `v` is a column in the form that a scan finds it: as it is, or compressed
   when its segment is. The offsets of a compressed segment need bare nulls.
   */
  predicate Presents(v: ColumnView, f: FieldVector, compressed: bool) {
    CellsFit(f) && (v == PlainView(f) || (compressed && v == Lz4View(f))) && (compressed ==> NullsBare(f))
  }

  predicate PresentsSegment(v: ScanSegment, s: Segment) {
    && v.rowCount == s.rowCount && |v.columns| == |s.fields|
    && forall c :: 0 <= c < |s.fields| ==> Presents(v.columns[c], s.fields[c], v.compressed)
  }

  /** The form without compression. */
  function PlainSegment(s: Segment): (v: ScanSegment)
    requires forall c :: 0 <= c < |s.fields| ==> CellsFit(s.fields[c])
    ensures PresentsSegment(v, s) && !v.compressed
  {
    ScanSegment(false, seq(|s.fields|, c requires 0 <= c < |s.fields| => assert CellsFit(s.fields[c]); PlainView(s.fields[c])),
                s.rowCount, [])
  }

  lemma ColumnPresented(v: ColumnView, f: FieldVector, compressed: bool)
    requires Presents(v, f, compressed)
    ensures WellFormed(v, |f.cells|) && (compressed ==> NullsEmpty(v, |f.cells|))
    ensures v.ftype == f.ftype && (!compressed ==> !IsLz4(v))
    ensures forall r :: 0 <= r < |f.cells| ==> ValueAt(v, |f.cells|, r) == ValueOf(f.cells[r])
  {
    hide ValueAt, Joined, SumTo;
    WellFormedViews(f);
    forall r | 0 <= r < |f.cells|
      ensures ValueAt(v, |f.cells|, r) == ValueOf(f.cells[r])
    {
      StoredFormsShowTheCells(f, r);
    }
  }

  lemma WellFormedViews(f: FieldVector)
    requires CellsFit(f)
    ensures WellFormed(PlainView(f), |f.cells|) && WellFormed(Lz4View(f), |f.cells|)
    ensures NullsBare(f) ==> NullsEmpty(PlainView(f), |f.cells|) && NullsEmpty(Lz4View(f), |f.cells|)
  {
    hide Joined, Encoded, Packed, Literals, SumTo;
    Lz4Unpacks(f);
    if IsVarlen(f.ftype) {
      JoinedLength(f, |f.cells|);
      assert f.cells[..|f.cells|] == f.cells;
    }
  }

  lemma RowsPresented(v: ScanSegment, s: Segment, types: seq<FieldType>)
    requires PresentsSegment(v, s) && ValidSegment(s) && MatchesSchema(s, types)
    ensures Readable(v) && HasTypes(v, types)
    ensures FirstRows(v, v.rowCount) == ShownRows(SegmentRows(s))
  {
    hide WellFormed, NullsEmpty, ValueAt, Presents;
    forall c | 0 <= c < |s.fields|
      ensures WellFormed(v.columns[c], v.rowCount) && (v.compressed ==> NullsEmpty(v.columns[c], v.rowCount))
      ensures v.columns[c].ftype == types[c] && (!v.compressed ==> !IsLz4(v.columns[c]))
      ensures forall r :: 0 <= r < v.rowCount ==> ValueAt(v.columns[c], v.rowCount, r) == ValueOf(s.fields[c].cells[r])
    {
      ColumnPresented(v.columns[c], s.fields[c], v.compressed);
    }
    var rows, shown := FirstRows(v, v.rowCount), ShownRows(SegmentRows(s));
    forall r | 0 <= r < v.rowCount
      ensures rows[r] == shown[r]
    {
      assert SegmentRows(s)[r] == RowAt(s.fields, r, s.rowCount);
    }
  }

  ghost predicate PresentsAll(views: seq<ScanSegment>, segments: seq<Segment>, types: seq<FieldType>) {
    && |views| == |segments|
    && forall i :: 0 <= i < |views| ==>
         PresentsSegment(views[i], segments[i]) && ValidSegment(segments[i]) && MatchesSchema(segments[i], types)
  }

  lemma {:induction false} AllRowsPresented(views: seq<ScanSegment>, segments: seq<Segment>, types: seq<FieldType>)
    requires PresentsAll(views, segments, types)
    ensures Typed(views, types) && forall s :: s in segments ==> ValidSegment(s)
    ensures AllValues(views, types) == ShownRows(AllRows(segments))
  {
    hide PresentsSegment, Readable, SegmentRows, FirstRows;
    if segments != [] {
      RowsPresented(views[0], segments[0], types);
      AllRowsPresented(views[1..], segments[1..], types);
      ShownConcat(SegmentRows(segments[0]), AllRows(segments[1..]));
      forall i | 0 <= i < |views|
        ensures Readable(views[i]) && HasTypes(views[i], types)
      {
        RowsPresented(views[i], segments[i], types);
      }
    }
  }

  /**
   A scan over everything that a clean table enumerates, in whatever form each
   segment is stored, finds what the query finds in the rows that were appended.
   */
  lemma ScanFindsAppendedRows(state: DatasetState, visited: seq<Segment>, views: seq<ScanSegment>,
                              preds: seq<Predicate>, outs: seq<Output>)
    requires state.Valid() && state.dataset.Aligned() && state.Clean() && Visits(state, visited)
    requires PresentsAll(views, visited, state.dataset.types) && Fits(outs, state.dataset.types)
    ensures AllReadable(outs, views)
    ensures Wide(ShownRows(state.TableRows()), state.dataset.types)
    ensures AllMatching(preds, outs, views) == Found(preds, outs, state.dataset.types, ShownRows(state.TableRows()))
  {
    hide AllRows, AllValues, AllMatching, Found, PresentsAll, DatasetState.Valid, Visits;
    EnumerationShowsEveryRow(state, visited);
    AllRowsPresented(views, visited, state.dataset.types);
    ScanIsQuery(preds, outs, state.dataset.types, views);
  }
}
