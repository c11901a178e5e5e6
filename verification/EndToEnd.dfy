/** From the rows that were appended to what a client or the extension finds. */
module EndToEnd {
  import opened Bytes
  import opened Table
  import opened Predicates
  import opened Views
  import opened NumberArrays
  import opened Lz4
  import opened Lz4Block
  import opened ScanSpec
  import opened ScanTable
  import opened ScanRefinement
  import opened PredicateMask
  import opened SegmentStore
  import opened StoreViews
  import opened Aggregation
  import opened PythonQuery
  import opened ExtensionQuery
  import opened ScanCodec
  import opened Scanner

  // ---------- The extension ----------

  /** The extension stores a bool as 0 or 1. */
  predicate BoolCells(f: FieldVector) {
    f.ftype.Bool? ==> forall r :: 0 <= r < |f.cells| && f.cells[r].Number? && f.cells[r].valid ==> f.cells[r].raw <= 1
  }

  ghost predicate BoolsStored(segments: seq<Segment>) {
    forall i, c :: 0 <= i < |segments| && 0 <= c < |segments[i].fields| ==> BoolCells(segments[i].fields[c])
  }

  lemma PresentedBools(v: ColumnView, f: FieldVector, compressed: bool)
    requires Presents(v, f, compressed) && BoolCells(f)
    ensures WellFormed(v, |f.cells|) && BoolColumn(v, |f.cells|)
  {
    hide ValueAt, WellFormed;
    ColumnPresented(v, f, compressed);
  }

  /** A stored column ends its blocks where the decoder stops. */
  lemma PresentedDecodes(v: ColumnView, f: FieldVector, compressed: bool)
    requires Presents(v, f, compressed) && FiniteCells(f)
    ensures WellFormed(v, |f.cells|) && Decodable(v, |f.cells|) && FiniteColumn(v, |f.cells|)
  {
    hide Literals, Encoded, Packed, Numbers, RunBoundary, Joined, SumTo, ValueAt;
    var n := |f.cells|;
    ColumnPresented(v, f, compressed);
    Lz4Unpacks(f);
    if IsVarlen(f.ftype) {
      EncodedRoundTrip(Packed(Lengths(f), 4));
      EncodedRoundTrip(Joined(f.cells));
      JoinedLength(f, n);
      assert f.cells[..n] == f.cells;
    } else {
      EncodedRoundTrip(Packed(Raws(f), Width(f.ftype)));
    }
  }

  lemma SegmentDecodes(v: ScanSegment, s: Segment, types: seq<FieldType>)
    requires PresentsSegment(v, s) && Queryable(s, types) && forall c :: 0 <= c < |s.fields| ==> BoolCells(s.fields[c])
    ensures Decodes(v, types)
  {
    hide WellFormed, Decodable, FiniteColumn, BoolColumn, BoolCells, ValueAt, FirstRows, NullsEmpty, Presents;
    RowsPresented(v, s, types);
    forall c | 0 <= c < |s.fields|
      ensures WellFormed(v.columns[c], v.rowCount) && Decodable(v.columns[c], v.rowCount)
      ensures FiniteColumn(v.columns[c], v.rowCount) && BoolColumn(v.columns[c], v.rowCount)
    {
      PresentedDecodes(v.columns[c], s.fields[c], v.compressed);
      PresentedBools(v.columns[c], s.fields[c], v.compressed);
    }
  }

  lemma AllDecode(views: seq<ScanSegment>, segments: seq<Segment>, types: seq<FieldType>)
    requires PresentsAll(views, segments, types) && AllQueryable(segments, types) && BoolsStored(segments)
    ensures forall i :: 0 <= i < |views| ==> Decodes(views[i], types)
  {
    hide Decodes, PresentsSegment, Queryable, BoolCells;
    forall i | 0 <= i < |views|
      ensures Decodes(views[i], types)
    {
      SegmentDecodes(views[i], segments[i], types);
    }
  }

  /**
   The extension's scan over stored segments, in whatever form each of them is,
   finds what the Python loop finds in the rows that were appended, exactly when
   it hides no text.
   */
  lemma ExtensionScansAppendedRows(views: seq<ScanSegment>, segments: seq<Segment>, types: seq<FieldType>,
                                   preds: seq<Predicate>, outs: seq<Output>, cast: real -> int)
    requires PresentsAll(views, segments, types) && AllQueryable(segments, types) && BoolsStored(segments)
    requires Fits(outs, types) && AllParsed(preds, types) && IsCast(cast)
    requires SingleEq(preds) ==> Narrows(types[preds[0].field], preds[0].value)
    ensures (forall i :: 0 <= i < |views| ==> Decodes(views[i], types)) && Typed(views, types)
    ensures (forall s :: s in segments ==> ValidSegment(s)) && Wide(ShownRows(AllRows(segments)), types)
    ensures ScanFinds(preds, outs, types, views, cast) == Found(preds, outs, types, ShownRows(AllRows(segments))) <==>
            HidesNoText(preds, outs, types, views)
  {
    hide Decodes, PresentsAll, AllQueryable, BoolsStored, ScanFinds, Found, AllValues, AllRows, IsCast, Narrows, HidesNoText;
    AllDecode(views, segments, types);
    AllRowsPresented(views, segments, types);
    ScanAgreesOnTable(preds, outs, types, views, cast);
  }

  /** In a sealed segment a text is hidden exactly when it is found and its column was appended without a single byte. */
  lemma TextsHiddenExactly(v: ScanSegment, s: Segment, types: seq<FieldType>, preds: seq<Predicate>, outs: seq<Output>)
    requires PresentsSegment(v, s) && Queryable(s, types) && Fits(outs, types)
    ensures Readable(v) && HasTypes(v, types) && ValidSegment(s) && Wide(ShownRows(SegmentRows(s)), types)
    ensures HidesText(preds, outs, types, v) <==>
            v.compressed && exists r, i ::
              && 0 <= r < s.rowCount && 0 <= i < |outs| && Qualifies(preds, types, ShownRows(SegmentRows(s))[r])
              && s.fields[outs[i].index].cells[r].valid
              && IsVarlen(types[outs[i].index]) && Joined(s.fields[outs[i].index].cells) == []
  {
    hide WellFormed, ValueAt, FirstRows, NullsEmpty, Presents, Qualifies, Byteless, Joined, CellsFit, FiniteCells;
    RowsPresented(v, s, types);
    forall c | 0 <= c < |s.fields|
      ensures WellFormed(v.columns[c], v.rowCount) && |v.columns[c].valid| == s.rowCount
      ensures Byteless(v.columns[c], v.rowCount) <==> IsVarlen(types[c]) && Joined(s.fields[c].cells) == []
      ensures forall r :: 0 <= r < s.rowCount ==> v.columns[c].valid[r] == s.fields[c].cells[r].valid
    {
      BytesPresented(v.columns[c], s.fields[c], v.compressed);
    }
  }

  lemma BytesPresented(v: ColumnView, f: FieldVector, compressed: bool)
    requires Presents(v, f, compressed)
    ensures WellFormed(v, |f.cells|) && |v.valid| == |f.cells|
    ensures Byteless(v, |f.cells|) <==> IsVarlen(f.ftype) && Joined(f.cells) == []
    ensures forall r :: 0 <= r < |f.cells| ==> v.valid[r] == f.cells[r].valid
  {
    hide Literals, Encoded, Packed, Numbers, Joined, SumTo, ValueAt;
    ColumnPresented(v, f, compressed);
    Lz4Unpacks(f);
    if IsVarlen(f.ftype) {
      JoinedLength(f, |f.cells|);
      assert f.cells[..|f.cells|] == f.cells;
    }
  }

  /** The zone maps of a segment are the least and greatest numbers of its columns. */
  ghost predicate ExactStats(v: ScanSegment)
    requires Readable(v)
  {
    && |v.stats| == |v.columns|
    && forall i :: 0 <= i < |v.columns| ==>
         Bounds(v.stats[i], v.columns[i], v.rowCount) &&
         (v.stats[i].hasValue ==>
            Attained(v.columns[i], v.rowCount, v.stats[i].min) && Attained(v.columns[i], v.rowCount, v.stats[i].max))
  }

  lemma PresentedFits(v: ColumnView, f: FieldVector, compressed: bool)
    requires Presents(v, f, compressed) && f.ftype.Int32?
    ensures WellFormed(v, |f.cells|) && Int32Column(v, |f.cells|)
  {
    hide WellFormed, ValueAt, NullsEmpty;
    ColumnPresented(v, f, compressed);
    assert Pow256(4) == 0x1_0000_0000 by {
      FourBytes();
    }
  }

  lemma FourBytes()
    ensures Pow256(4) == 0x1_0000_0000
  {
    assert Pow256(1) == 256 && Pow256(2) == 65536 && Pow256(3) == 16777216;
  }

  /** Zone maps as the engine's ComputeStats builds them make a stored segment ready for the extension's aggregate. */
  lemma StoredIsReady(v: ScanSegment, s: Segment, types: seq<FieldType>)
    requires PresentsSegment(v, s) && Queryable(s, types) && Readable(v) && ExactStats(v)
    requires forall c :: 0 <= c < |s.fields| ==> BoolCells(s.fields[c])
    ensures Ready(v, types)
  {
    hide WellFormed, Decodable, FiniteColumn, BoolColumn, BoolCells, Bounds, Attained, Int32Column, Presents, NullsEmpty, ValueAt;
    SegmentDecodes(v, s, types);
    forall c | 0 <= c < |v.columns| && v.columns[c].ftype.Int32?
      ensures Int32Column(v.columns[c], v.rowCount)
    {
      PresentedFits(v.columns[c], s.fields[c], v.compressed);
    }
  }

  /**
   The extension's aggregate over stored segments is the Python loop's over the
   rows that were appended, for every request on which the two agree at all.
   */
  lemma ExtensionAggregatesAppendedRows(views: seq<ScanSegment>, segments: seq<Segment>, types: seq<FieldType>,
                                        preds: seq<Predicate>, q: Request)
    requires PresentsAll(views, segments, types) && AllQueryable(segments, types) && Typed(views, types)
    requires BoolsStored(segments)
    requires forall i :: 0 <= i < |views| ==> ExactStats(views[i])
    requires RequestFits(q, types) && AllParsed(preds, types) && Consistent(q)
    ensures forall i :: 0 <= i < |views| ==> Ready(views[i], types)
    ensures (forall s :: s in segments ==> ValidSegment(s)) && Wide(ShownRows(AllRows(segments)), types)
    ensures Extension(preds, types, AllValues(views, types), q) == Reference(preds, types, ShownRows(AllRows(segments)), q)
  {
    hide Ready, PresentsSegment, Queryable, BoolCells, ExactStats, AllValues, AllRows, Readable, Extension, Reference, Consistent;
    forall i | 0 <= i < |views|
      ensures Ready(views[i], types)
    {
      StoredIsReady(views[i], segments[i], types);
    }
    AllRowsPresented(views, segments, types);
    ExtensionAgreesExactly(q, types);
    assert SameAnswers(q, types);
  }

  // ---------- The server ----------

  /** Every value has the type of its column. */
  predicate TableTyped(types: seq<FieldType>, rows: seq<ValueRow>) {
    Wide(rows, types) && forall r, c :: 0 <= r < |rows| && 0 <= c < |types| ==> ValueFits(types[c], rows[r][c])
  }

  lemma CellsShowFitting(f: FieldVector, r: nat)
    requires CellsFit(f) && r < |f.cells|
    ensures ValueFits(f.ftype, ValueOf(f.cells[r]))
  {
    hide Pow256;
  }

  lemma SegmentTyped(s: Segment, types: seq<FieldType>)
    requires ValidSegment(s) && MatchesSchema(s, types) && forall c :: 0 <= c < |s.fields| ==> CellsFit(s.fields[c])
    ensures TableTyped(types, ShownRows(SegmentRows(s)))
  {
    hide CellsFit, ValueFits, ValueOf;
    var rows := ShownRows(SegmentRows(s));
    forall r, c | 0 <= r < |rows| && 0 <= c < |types|
      ensures ValueFits(types[c], rows[r][c])
    {
      assert SegmentRows(s)[r] == RowAt(s.fields, r, s.rowCount);
      CellsShowFitting(s.fields[c], r);
    }
  }

  lemma {:induction false} AllTyped(views: seq<ScanSegment>, segments: seq<Segment>, types: seq<FieldType>)
    requires PresentsAll(views, segments, types)
    ensures forall s :: s in segments ==> ValidSegment(s)
    ensures TableTyped(types, ShownRows(AllRows(segments)))
  {
    hide CellsFit, SegmentRows, ValueFits;
    if segments != [] {
      AllTyped(views[1..], segments[1..], types);
      assert PresentsSegment(views[0], segments[0]);
      forall c | 0 <= c < |segments[0].fields|
        ensures CellsFit(segments[0].fields[c])
      {
        assert Presents(views[0].columns[c], segments[0].fields[c], views[0].compressed);
      }
      SegmentTyped(segments[0], types);
      ShownConcat(SegmentRows(segments[0]), AllRows(segments[1..]));
    }
  }

  /** A row of the answer: values of the output types, and equal values for equal columns. */
  predicate Answers(outs: seq<Output>, row: ValueRow) {
    && |row| == |outs| && (forall i :: 0 <= i < |outs| ==> ValueFits(outs[i].ftype, row[i]))
    && forall i, j :: 0 <= i < |outs| && 0 <= j < |outs| && outs[i].index == outs[j].index ==> row[i] == row[j]
  }

  lemma {:induction false} FoundAnswers(preds: seq<Predicate>, outs: seq<Output>, types: seq<FieldType>, rows: seq<ValueRow>)
    requires Fits(outs, types) && TableTyped(types, rows)
    ensures forall row :: row in Found(preds, outs, types, rows) ==> Answers(outs, row)
  {
    hide Qualifies, ValueFits;
    if rows != [] {
      FoundAnswers(preds, outs, types, rows[..|rows| - 1]);
      assert Answers(outs, Project(outs, types, rows[|rows| - 1]));
    }
  }

  /** The counts and the texts of the answer fit into their fields on the wire. */
  predicate SizesFit(outs: seq<Output>, rows: seq<ValueRow>) {
    && RowsFit(outs, rows) && |rows| < Pow256(4) && |outs| < Pow256(2)
    && forall i :: 0 <= i < |outs| ==> outs[i].index < Pow256(2) && |SentText(Column(rows, i))| < Pow256(4)
  }

  lemma AnswersTransmissible(outs: seq<Output>, types: seq<FieldType>, rows: seq<ValueRow>)
    requires Fits(outs, types) && SizesFit(outs, rows) && forall row :: row in rows ==> Answers(outs, row)
    ensures Transmissible(outs, rows)
  {
    hide ValueFits, SentText, Pow256;
    forall r | 0 <= r < |rows|
      ensures Answers(outs, rows[r])
    {
      assert rows[r] in rows;
    }
    forall i, j | 0 <= i < |outs| && 0 <= j < |outs| && outs[i].index == outs[j].index
      ensures outs[i].ftype == outs[j].ftype && Column(rows, i) == Column(rows, j)
    {
    }
  }

  /** The rows that a query is to return. */
  ghost function Queried(state: DatasetState, preds: seq<Predicate>, outs: seq<Output>, offset: nat, limit: nat): seq<ValueRow>
    requires NonEmptySegments(state.Sealed) && state.dataset.Aligned() && Fits(outs, state.dataset.types)
    requires Wide(ShownRows(state.TableRows()), state.dataset.types)
    reads state, state.dataset
  {
    Take(Drop(Found(preds, outs, state.dataset.types, ShownRows(state.TableRows())), offset), limit)
  }

  /**
   A query from the table to the client: the server scans what a clean table
   enumerates, in whatever form each segment is stored, encodes what it found,
   and the client decodes it. The client has the rows that filter, drop and take
   leave of the rows that were appended.
   */
  method QueryOverWire(state: DatasetState, scan: Scan, ghost visited: seq<Segment>, views: seq<ScanSegment>)
      returns (ok: bool, result: seq<ValueRow>)
    requires state.Valid() && state.dataset.Aligned() && state.Clean() && Visits(state, visited)
    requires PresentsAll(views, visited, state.dataset.types) && Fits(scan.outs, state.dataset.types) && scan.outs != []
    requires scan.Valid() && scan.Emitted == [] && !scan.stop && forall i :: 0 <= i < |views| ==> scan.Scannable(views[i])
    requires Wide(ShownRows(state.TableRows()), state.dataset.types)
    requires SizesFit(scan.outs, Queried(state, scan.preds, scan.outs, scan.remainingOffset, scan.remainingLimit))
    modifies scan
    ensures Wide(ShownRows(state.TableRows()), state.dataset.types)
    ensures var rows := Queried(state, scan.preds, scan.outs, old(scan.remainingOffset), old(scan.remainingLimit));
            && (ok ==> |result| == |rows| && RowsFit(scan.outs, rows) &&
                       forall r :: 0 <= r < |rows| ==> result[r] == NormalRow(scan.outs, rows[r]))
            && (!ok ==> !InRange(scan.preds, |state.dataset.types|))
  {
    hide PresentsAll, Visits, DatasetState.Valid, Scan.Scannable, Found, Take, Drop, AllMatching, AllRows, AllReadable,
         Transmissible, SizesFit, Answers, NormalRow, InRange, Rendered;
    ghost var types, preds, outs := state.dataset.types, scan.preds, scan.outs;
    ghost var offset, limit := scan.remainingOffset, scan.remainingLimit;
    SealedNotEmpty(state);
    ghost var rows := Queried(state, preds, outs, offset, limit);
    ScanFindsAppendedRows(state, visited, views, preds, outs);
    EnumerationShowsEveryRow(state, visited);
    AllTyped(views, visited, types);
    FoundAnswers(preds, outs, types, ShownRows(state.TableRows()));
    PartAnswers(outs, Found(preds, outs, types, ShownRows(state.TableRows())), offset, limit);
    AnswersTransmissible(outs, types, rows);
    ColumnCount(views, visited, types);
    ok := scan.Run(views);
    if !ok {
      return false, [];
    }
    TypedForWire(outs, rows);
    ok, result := ScanResponse(scan.outs, scan.outputs, rows);
  }

  lemma SealedNotEmpty(state: DatasetState)
    requires state.Valid()
    ensures NonEmptySegments(state.Sealed)
  {
  }

  lemma TypedForWire(outs: seq<Output>, rows: seq<ValueRow>)
    requires Transmissible(outs, rows)
    ensures RowsFit(outs, rows)
  {
  }

  lemma ColumnCount(views: seq<ScanSegment>, segments: seq<Segment>, types: seq<FieldType>)
    requires PresentsAll(views, segments, types)
    ensures forall i :: 0 <= i < |views| ==> |views[i].columns| == |types|
  {
  }

  lemma PartAnswers(outs: seq<Output>, rows: seq<ValueRow>, offset: nat, limit: nat)
    requires forall row :: row in rows ==> Answers(outs, row)
    ensures forall row :: row in Take(Drop(rows, offset), limit) ==> Answers(outs, row)
  {
  }
}
