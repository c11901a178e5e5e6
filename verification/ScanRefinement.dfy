/** The rows that a scan finds depend on the values of the table alone, not on how they are divided and stored. */
module ScanRefinement {
  import opened Bytes
  import opened Table
  import opened Predicates
  import opened Views
  import opened ScanSpec
  import opened ScanTable
  import opened Lz4
  import opened Lz4Block
  import opened NumberArrays

  // ---------- Filter and project over a plain list of rows ----------

  predicate Qualifies(preds: seq<Predicate>, types: seq<FieldType>, row: ValueRow)
    requires |row| == |types|
  {
    forall k :: 0 <= k < |preds| ==>
      preds[k].field < |types| && Satisfies(row[preds[k].field], types[preds[k].field], preds[k].op, preds[k].value)
  }

  predicate Fits(outs: seq<Output>, types: seq<FieldType>) {
    forall i :: 0 <= i < |outs| ==> outs[i].index < |types| && types[outs[i].index] == outs[i].ftype
  }

  function Project(outs: seq<Output>, types: seq<FieldType>, row: ValueRow): (p: ValueRow)
    requires Fits(outs, types) && |row| == |types|
    ensures |p| == |outs|
  {
    seq(|outs|, i requires 0 <= i < |outs| => row[outs[i].index])
  }

  predicate Wide(rows: seq<ValueRow>, types: seq<FieldType>) {
    forall r :: 0 <= r < |rows| ==> |rows[r]| == |types|
  }

  /** The meaning of a query on a list of rows. */
  function Found(preds: seq<Predicate>, outs: seq<Output>, types: seq<FieldType>, rows: seq<ValueRow>): seq<ValueRow>
    requires Fits(outs, types) && Wide(rows, types)
  {
    if rows == [] then []
    else
      var last := rows[|rows| - 1];
      Found(preds, outs, types, rows[..|rows| - 1]) +
      if Qualifies(preds, types, last) then [Project(outs, types, last)] else []
  }

  lemma {:induction false} FoundConcat(preds: seq<Predicate>, outs: seq<Output>, types: seq<FieldType>,
                                       a: seq<ValueRow>, b: seq<ValueRow>)
    requires Fits(outs, types) && Wide(a, types) && Wide(b, types)
    ensures Wide(a + b, types)
    ensures Found(preds, outs, types, a + b) == Found(preds, outs, types, a) + Found(preds, outs, types, b)
  {
    hide Qualifies, Project, Found;
    FoundLast(preds, outs, types, []);
    if b == [] {
      assert a + b == a;
    } else {
      var front := b[..|b| - 1];
      FoundConcat(preds, outs, types, a, front);
      FoundLast(preds, outs, types, b);
      FoundLast(preds, outs, types, a + b);
      assert (a + b)[..|a + b| - 1] == a + front;
    }
  }

  lemma FoundLast(preds: seq<Predicate>, outs: seq<Output>, types: seq<FieldType>, rows: seq<ValueRow>)
    requires Fits(outs, types) && Wide(rows, types)
    ensures rows == [] ==> Found(preds, outs, types, rows) == []
    ensures rows != [] ==>
              var last := rows[|rows| - 1];
              Found(preds, outs, types, rows) ==
              Found(preds, outs, types, rows[..|rows| - 1]) +
              if Qualifies(preds, types, last) then [Project(outs, types, last)] else []
  {
    hide Qualifies, Project;
  }

  // ---------- A scan is that query ----------

  /** The segments have the columns of the table. */
  ghost predicate Typed(segments: seq<ScanSegment>, types: seq<FieldType>) {
    forall i :: 0 <= i < |segments| ==> Readable(segments[i]) && HasTypes(segments[i], types)
  }

  predicate HasTypes(s: ScanSegment, types: seq<FieldType>) {
    |s.columns| == |types| && forall c :: 0 <= c < |types| ==> s.columns[c].ftype == types[c]
  }

  ghost function FullRow(s: ScanSegment, r: nat): (row: ValueRow)
    requires Readable(s) && r < s.rowCount
    ensures |row| == |s.columns|
  {
    seq(|s.columns|, c requires 0 <= c < |s.columns| => ValueAt(s.columns[c], s.rowCount, r))
  }

  ghost function FirstRows(s: ScanSegment, n: nat): (rows: seq<ValueRow>)
    requires Readable(s) && n <= s.rowCount
    ensures |rows| == n && forall r :: 0 <= r < n ==> rows[r] == FullRow(s, r)
  {
    seq(n, r requires 0 <= r < n => FullRow(s, r))
  }

  /** The values of all segments, row by row. */
  ghost function AllValues(segments: seq<ScanSegment>, types: seq<FieldType>): (rows: seq<ValueRow>)
    requires Typed(segments, types)
    ensures Wide(rows, types)
    decreases segments
  {
    if segments == [] then []
    else FirstRows(segments[0], segments[0].rowCount) + AllValues(segments[1..], types)
  }

  lemma {:induction false} MatchingIsFound(preds: seq<Predicate>, outs: seq<Output>, types: seq<FieldType>,
                                           s: ScanSegment, n: nat)
    requires Readable(s) && HasTypes(s, types) && Fits(outs, types) && n <= s.rowCount
    ensures OutputsFit(outs, s.columns) && Wide(FirstRows(s, n), types)
    ensures MatchingUpTo(preds, outs, s, n) == Found(preds, outs, types, FirstRows(s, n))
  {
    hide Readable, ValueAt, Satisfies;
    if n != 0 {
      MatchingIsFound(preds, outs, types, s, n - 1);
      var rows := FirstRows(s, n);
      assert rows[..n - 1] == FirstRows(s, n - 1);
      assert Matches(preds, s, n - 1) <==> Qualifies(preds, types, rows[n - 1]);
      assert RowValues(outs, s, n - 1) == Project(outs, types, rows[n - 1]);
    }
  }

  /** What the executors find in the segments is the query's result on the concatenated rows. */
  lemma {:induction false} ScanIsQuery(preds: seq<Predicate>, outs: seq<Output>, types: seq<FieldType>,
                                       segments: seq<ScanSegment>)
    requires Typed(segments, types) && Fits(outs, types)
    ensures AllReadable(outs, segments)
    ensures AllMatching(preds, outs, segments) == Found(preds, outs, types, AllValues(segments, types))
    decreases segments
  {
    hide Readable, Matching, MatchingUpTo, Found;
    if segments == [] {
      assert Found(preds, outs, types, []) == [] by {
        NothingFound(preds, outs, types);
      }
    } else {
      var s := segments[0];
      var rows := FirstRows(s, s.rowCount);
      assert AllReadable(outs, segments);
      ScanIsQuery(preds, outs, types, segments[1..]);
      MatchingIsFound(preds, outs, types, s, s.rowCount);
      WholeSegment(preds, outs, s);
      FoundConcat(preds, outs, types, rows, AllValues(segments[1..], types));
    }
  }

  lemma NothingFound(preds: seq<Predicate>, outs: seq<Output>, types: seq<FieldType>)
    requires Fits(outs, types)
    ensures Found(preds, outs, types, []) == []
  {
  }

  lemma WholeSegment(preds: seq<Predicate>, outs: seq<Output>, s: ScanSegment)
    requires Readable(s) && OutputsFit(outs, s.columns)
    ensures Matching(preds, outs, s) == MatchingUpTo(preds, outs, s, s.rowCount)
  {
  }

  /** Two ways to divide and store the same rows give the same scan. */
  lemma StorageDoesNotMatter(preds: seq<Predicate>, outs: seq<Output>, types: seq<FieldType>,
                             a: seq<ScanSegment>, b: seq<ScanSegment>)
    requires Typed(a, types) && Typed(b, types) && Fits(outs, types)
    requires AllValues(a, types) == AllValues(b, types)
    ensures AllReadable(outs, a) && AllReadable(outs, b)
    ensures AllMatching(preds, outs, a) == AllMatching(preds, outs, b)
  {
    ScanIsQuery(preds, outs, types, a);
    ScanIsQuery(preds, outs, types, b);
  }

  // ---------- The stored forms of a column show its cells ----------

  /** The cells fit the column's type and width. */
  predicate CellsFit(f: FieldVector) {
    forall r :: 0 <= r < |f.cells| ==>
      if IsVarlen(f.ftype) then f.cells[r].Text? && |f.cells[r].bytes| < Pow256(4)
      else f.cells[r].Number? && f.cells[r].raw < Pow256(Width(f.ftype))
  }

  function Raws(f: FieldVector): (s: seq<nat>)
    requires CellsFit(f) && !IsVarlen(f.ftype)
    ensures |s| == |f.cells|
  {
    seq(|f.cells|, r requires 0 <= r < |f.cells| => f.cells[r].raw)
  }

  function Lengths(f: FieldVector): (s: seq<nat>)
    requires CellsFit(f) && IsVarlen(f.ftype)
    ensures |s| == |f.cells|
  {
    seq(|f.cells|, r requires 0 <= r < |f.cells| => |f.cells[r].bytes|)
  }

  function Joined(cells: seq<Cell>): seq<byte> {
    if cells == [] then []
    else
      var last := cells[|cells| - 1];
      Joined(cells[..|cells| - 1]) + if last.Text? then last.bytes else []
  }

  lemma {:induction false} StoredBytesMore(cells: seq<Cell>, c: Cell)
    ensures StoredBytes(cells + [c]) == StoredBytes(cells) + if c.Text? then |c.bytes| else 0
  {
    if cells == [] {
      assert [c][1..] == [];
    } else {
      StoredBytesMore(cells[1..], c);
      assert (cells + [c])[1..] == cells[1..] + [c];
    }
  }

  lemma {:induction false} StoredBytesAreJoined(cells: seq<Cell>)
    ensures StoredBytes(cells) == |Joined(cells)|
  {
    if cells != [] {
      var front := cells[..|cells| - 1];
      StoredBytesAreJoined(front);
      StoredBytesMore(front, cells[|cells| - 1]);
      assert front + [cells[|cells| - 1]] == cells;
    }
  }

  /** What a column counts in the cache is what it stores: numbers, or lengths and bytes, and the validity words. */
  lemma FieldBytesAreStorage(f: FieldVector)
    ensures FieldBytes(f) ==
            (if IsVarlen(f.ftype) then 4 * |f.cells| + |Joined(f.cells)| else Width(f.ftype) * |f.cells|) +
            if f.hasNulls then (|f.cells| + 63) / 64 * 8 else 0
  {
    StoredBytesAreJoined(f.cells);
  }

  function Validity(f: FieldVector): seq<bool> {
    seq(|f.cells|, r requires 0 <= r < |f.cells| => f.cells[r].valid)
  }

  /** The column without compression. */
  function PlainView(f: FieldVector): ColumnView
    requires CellsFit(f)
  {
    ColumnView(f.ftype, Validity(f), if IsVarlen(f.ftype) then RawTexts(Lengths(f), Joined(f.cells)) else RawNumbers(Raws(f)))
  }

  /** The column as an LZ4-compressed segment holds it. */
  function Lz4View(f: FieldVector): ColumnView
    requires CellsFit(f)
  {
    ColumnView(f.ftype, Validity(f),
               if IsVarlen(f.ftype) then Lz4Texts(Encoded(Packed(Lengths(f), 4)), Encoded(Joined(f.cells)))
               else Lz4Numbers(Encoded(Packed(Raws(f), Width(f.ftype)))))
  }

  lemma {:induction false} JoinedLength(f: FieldVector, r: nat)
    requires CellsFit(f) && IsVarlen(f.ftype) && r <= |f.cells|
    ensures SumTo(Lengths(f), r) == |Joined(f.cells[..r])|
  {
    if r != 0 {
      JoinedLength(f, r - 1);
      assert f.cells[..r][..r - 1] == f.cells[..r - 1];
    }
  }

  lemma {:induction false} JoinedPrefix(cells: seq<Cell>, r: nat)
    requires r <= |cells|
    ensures Joined(cells[..r]) <= Joined(cells)
  {
    if r == |cells| {
      assert cells[..r] == cells;
    } else {
      JoinedPrefix(cells[..|cells| - 1], r);
      assert cells[..|cells| - 1][..r] == cells[..r];
    }
  }

  lemma JoinedStep(cells: seq<Cell>, r: nat)
    requires r < |cells| && cells[r].Text?
    ensures Joined(cells[..r + 1]) == Joined(cells[..r]) + cells[r].bytes
  {
    assert cells[..r + 1][..r] == cells[..r];
  }

  lemma PrefixOfPrefix(whole: seq<byte>, front: seq<byte>, text: seq<byte>)
    requires front + text <= whole
    ensures whole[|front|..|front| + |text|] == text
  {
  }

  lemma JoinedAt(f: FieldVector, r: nat)
    requires CellsFit(f) && IsVarlen(f.ftype) && r < |f.cells|
    ensures SumTo(Lengths(f), |f.cells|) == |Joined(f.cells)|
    ensures TextAt(Lengths(f), Joined(f.cells), r) == f.cells[r].bytes
  {
    hide Joined;
    JoinedLength(f, |f.cells|);
    assert f.cells[..|f.cells|] == f.cells;
    JoinedLength(f, r);
    JoinedPrefix(f.cells, r + 1);
    JoinedStep(f.cells, r);
    PrefixOfPrefix(Joined(f.cells), Joined(f.cells[..r]), f.cells[r].bytes);
  }

  lemma Lz4Unpacks(f: FieldVector)
    requires CellsFit(f)
    ensures var c, n := Lz4View(f), |f.cells|;
            && (c.store.Lz4Numbers? ==> Width(c.ftype) * n <= |Literals(c.store.block, 0)|)
            && (c.store.Lz4Texts? ==> 4 * n <= |Literals(c.store.lengthBlock, 0)|)
            && Unpacked(c, n) == PlainView(f).store
  {
    hide Packed, Numbers, Literals, Encoded;
    if IsVarlen(f.ftype) {
      EncodedRoundTrip(Packed(Lengths(f), 4));
      EncodedRoundTrip(Joined(f.cells));
      UnpackedNumbers(Lengths(f), 4);
    } else {
      EncodedRoundTrip(Packed(Raws(f), Width(f.ftype)));
      UnpackedNumbers(Raws(f), Width(f.ftype));
    }
  }

  lemma PlainShows(f: FieldVector, r: nat)
    requires CellsFit(f) && r < |f.cells|
    ensures WellFormed(PlainView(f), |f.cells|)
    ensures ValueAt(PlainView(f), |f.cells|, r) == ValueOf(f.cells[r])
  {
    hide TextAt, Joined;
    if IsVarlen(f.ftype) {
      JoinedAt(f, r);
    }
  }

  /** Sealing a column with or without LZ4 compression leaves it showing the values that were appended. */
  lemma StoredFormsShowTheCells(f: FieldVector, r: nat)
    requires CellsFit(f) && r < |f.cells|
    ensures WellFormed(PlainView(f), |f.cells|) && WellFormed(Lz4View(f), |f.cells|)
    ensures ValueAt(PlainView(f), |f.cells|, r) == ValueOf(f.cells[r])
    ensures ValueAt(Lz4View(f), |f.cells|, r) == ValueOf(f.cells[r])
  {
    hide Literals, Encoded, TextAt, SumTo, Raws, Lengths, Joined, Packed, CellsFit;
    PlainShows(f, r);
    Lz4Unpacks(f);
  }
}
