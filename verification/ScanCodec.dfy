/** A scan response: the server packs the output columns and the client turns them into rows. */
module ScanCodec {
  import opened Bytes
  import opened Bitmap
  import opened NumberArrays
  import opened Table
  import opened Predicates
  import opened Views
  import opened ScanSpec
  import opened ColumnFormat
  import AppendCodec
  import ScanRefinement

  // ---------- The columns that a response carries ----------

  predicate ValueFits(t: FieldType, v: Value) {
    match v
    case Missing => true
    case Fixed(raw) => !IsVarlen(t) && raw < Pow256(Width(t))
    case Content(bytes) => IsVarlen(t) && |bytes| < Pow256(4)
  }

  /** The rows have values of the output types. */
  predicate RowsTyped(outs: seq<Output>, rows: seq<ValueRow>) {
    RowsFit(outs, rows) &&
    forall r, i :: 0 <= r < |rows| && 0 <= i < |outs| ==> ValueFits(outs[i].ftype, rows[r][i])
  }

  function Column(rows: seq<ValueRow>, i: nat): (values: seq<Value>)
    requires forall r :: 0 <= r < |rows| ==> i < |rows[r]|
    ensures |values| == |rows|
  {
    seq(|rows|, r requires 0 <= r < |rows| => rows[r][i])
  }

  /** The buffers of one column after all its values. */
  function RenderedColumn(t: FieldType, values: seq<Value>): OutputColumn {
    if values == [] then EMPTY
    else AppendValue(RenderedColumn(t, values[..|values| - 1]), t, values[|values| - 1])
  }

  lemma {:induction false} RenderedByColumn(outs: seq<Output>, rows: seq<ValueRow>, i: nat)
    requires RowsFit(outs, rows) && i < |outs|
    ensures Rendered(outs, rows)[i] == RenderedColumn(outs[i].ftype, Column(rows, i))
  {
    if rows != [] {
      var front := rows[..|rows| - 1];
      RenderedByColumn(outs, front, i);
      assert Column(rows, i)[..|rows| - 1] == Column(front, i);
    }
  }

  /** The bits that a column holds for a value: 0 or 1 for a bool, 0 for a null. */
  function SentRaw(t: FieldType, v: Value): (raw: nat)
    ensures v.Fixed? ==> NumberOf(t, raw) == NumberOf(t, v.raw)
    ensures t.Bool? ==> raw <= 1
  {
    if !v.Fixed? then 0 else if t.Bool? && v.raw != 0 then 1 else v.raw
  }

  function SentBytes(v: Value): seq<byte> { if v.Content? then v.bytes else [] }

  function SentRaws(t: FieldType, values: seq<Value>): (s: seq<nat>)
    ensures |s| == |values|
  {
    seq(|values|, r requires 0 <= r < |values| => SentRaw(t, values[r]))
  }

  function SentLengths(values: seq<Value>): (s: seq<nat>)
    ensures |s| == |values|
  {
    seq(|values|, r requires 0 <= r < |values| => |SentBytes(values[r])|)
  }

  function SentValidity(values: seq<Value>): (s: seq<bool>)
    ensures |s| == |values|
  {
    seq(|values|, r requires 0 <= r < |values| => !values[r].Missing?)
  }

  function SentText(values: seq<Value>): seq<byte> {
    if values == [] then [] else SentText(values[..|values| - 1]) + SentBytes(values[|values| - 1])
  }

  predicate AnyMissing(values: seq<Value>) { exists r :: 0 <= r < |values| && values[r].Missing? }

  predicate ValuesFit(t: FieldType, values: seq<Value>) {
    forall r :: 0 <= r < |values| ==> ValueFits(t, values[r])
  }

  /** The buffers in closed form. */
  ghost predicate Shaped(c: OutputColumn, t: FieldType, values: seq<Value>) {
    && c.validity == SentValidity(values) && c.hasNull == AnyMissing(values)
    && (IsVarlen(t) ==> c.lengths == SentLengths(values) && c.data == SentText(values))
    && (!IsVarlen(t) ==> c.lengths == [] && c.data == Packed(SentRaws(t, values), Width(t)))
  }

  lemma SentMore(t: FieldType, values: seq<Value>, v: Value)
    ensures SentValidity(values + [v]) == SentValidity(values) + [!v.Missing?]
    ensures SentLengths(values + [v]) == SentLengths(values) + [|SentBytes(v)|]
    ensures SentRaws(t, values + [v]) == SentRaws(t, values) + [SentRaw(t, v)]
    ensures SentText(values + [v]) == SentText(values) + SentBytes(v)
    ensures AnyMissing(values + [v]) <==> AnyMissing(values) || v.Missing?
  {
    assert (values + [v])[..|values|] == values;
    if AnyMissing(values) {
      var r :| 0 <= r < |values| && values[r].Missing?;
      assert (values + [v])[r].Missing?;
    }
    assert (values + [v])[|values|] == v;
  }

  lemma ShapedMore(c: OutputColumn, t: FieldType, values: seq<Value>, v: Value)
    requires Shaped(c, t, values) && ValueFits(t, v)
    ensures Shaped(AppendValue(c, t, v), t, values + [v])
  {
    hide LittleEndian, Packed, SentText, AnyMissing, SentValidity, SentLengths, SentRaws, Pow256;
    SentMore(t, values, v);
    AppendCodec.PackedMore(SentRaws(t, values), SentRaw(t, v), Width(t));
    NoWidth();
    assert c.data + [] == c.data;
  }

  lemma NoWidth()
    ensures LittleEndian(0, 0) == []
  {
  }

  lemma {:induction false} RenderedShape(t: FieldType, values: seq<Value>)
    requires ValuesFit(t, values)
    ensures Shaped(RenderedColumn(t, values), t, values)
  {
    hide Packed, AppendValue;
    if values == [] {
      AppendCodec.NothingPacked(Width(t));
    } else {
      var n := |values| - 1;
      RenderedShape(t, values[..n]);
      ShapedMore(RenderedColumn(t, values[..n]), t, values[..n], values[n]);
      assert values == values[..n] + [values[n]];
    }
  }

  // ---------- The server ----------

  /** An output column as it goes on the wire. */
  function WireOf(out: Output, c: OutputColumn): WireColumn {
    WireColumn(out.index, AppendCodec.TypeId(out.ftype), c.data, if IsVarlen(out.ftype) then c.lengths else [],
               c.hasNull, if c.hasNull then c.validity else [])
  }

  function WireColumns(outs: seq<Output>, columns: seq<OutputColumn>): (w: seq<WireColumn>)
    requires |outs| == |columns|
    ensures |w| == |outs|
  {
    seq(|outs|, i requires 0 <= i < |outs| => WireOf(outs[i], columns[i]))
  }

  predicate AllWellFormed(w: seq<WireColumn>, rows: nat) {
    forall i :: 0 <= i < |w| ==> ColumnFormat.WellFormed(w[i], rows)
  }

  predicate DescribesResponse(p: seq<byte>, rows: nat, columns: seq<WireColumn>) {
    && 6 <= |p| && NumberIn(p, 0, 4) == rows && NumberIn(p, 4, 2) == |columns|
    && DescribesAll(p, 6, columns, rows)
  }

  /** The end of HandleScan. Sizes are cut to the width of their fields. */
  method EncodeScan(outs: seq<Output>, columns: seq<OutputColumn>) returns (out: seq<byte>)
    requires |outs| == |columns|
    ensures var rows := if columns == [] then 0 else |columns[0].validity|;
            var w := WireColumns(outs, columns);
            AllWellFormed(w, rows) && rows < Pow256(4) && |outs| < Pow256(2) ==> DescribesResponse(out, rows, w)
  {
    hide ColumnFormat.WellFormed, Describes, LittleEndian, FromLittleEndian, Pow256, Size, Encodes, Layout;
    var rows := if columns == [] then 0 else |columns[0].validity|;
    ghost var w := WireColumns(outs, columns);
    ghost var fits := AllWellFormed(w, rows) && rows < Pow256(4) && |outs| < Pow256(2);
    out := LittleEndian(rows, 4) + LittleEndian(|outs|, 2);
    if fits {
      HeadReads(rows, |outs|);
    }
    ghost var head := out;
    for i := 0 to |outs|
      invariant head <= out && (fits ==> |out| == 6 + TotalSize(w[..i], rows) && DescribesAll(out, 6, w[..i], rows))
    {
      ghost var before := out;
      out := EncodeColumn(out, outs[i], columns[i], rows);
      if fits {
        assert w[..i + 1] == w[..i] + [w[i]];
        DescribesAllGrown(before, out, 6, w[..i], rows);
        DescribesAllLast(out, 6, w[..i], w[i], rows);
      }
    }
    assert w[..|outs|] == w;
    if fits {
      SamePiece(head, out, 0, 4);
      SamePiece(head, out, 4, 6);
    }
  }

  lemma HeadReads(rows: nat, count: nat)
    requires rows < Pow256(4) && count < Pow256(2)
    ensures NumberIn(LittleEndian(rows, 4) + LittleEndian(count, 2), 0, 4) == rows
    ensures NumberIn(LittleEndian(rows, 4) + LittleEndian(count, 2), 4, 2) == count
  {
    hide LittleEndian, FromLittleEndian, Pow256;
    var a, b := LittleEndian(rows, 4), LittleEndian(count, 2);
    assert (a + b)[0..4] == a && (a + b)[4..6] == b;
    LittleEndianFits(rows, 4);
    LittleEndianFits(count, 2);
  }

  method EncodeColumn(out: seq<byte>, o: Output, c: OutputColumn, rows: nat) returns (out': seq<byte>)
    ensures out <= out'
    ensures ColumnFormat.WellFormed(WireOf(o, c), rows) ==>
              Describes(out', |out|, WireOf(o, c), rows) && |out'| == |out| + Size(WireOf(o, c), rows)
  {
    hide ColumnFormat.WellFormed, Describes, LittleEndian, Packed, Pow256, Size, Encodes;
    var bitmap := [];
    if c.hasNull {
      bitmap := Pack(c.validity);
    }
    var part := [];
    if IsVarlen(o.ftype) {
      part := LittleEndian(|c.data|, 4) + Packed(c.lengths, 4);
    }
    var more := LittleEndian(o.index, 2) + [AppendCodec.TypeId(o.ftype), ModeByte(c.hasNull)] + LittleEndian(rows, 4)
      + part + c.data + bitmap;
    ghost var w := WireOf(o, c);
    if ColumnFormat.WellFormed(w, rows) {
      assert more == Layout(w, rows, bitmap);
      LayoutDescribes(out, w, rows, bitmap);
    }
    out' := out + more;
  }

  // ---------- The client ----------

  /** One column of the response; only the types of TYPE_SIZES, string and bytes are known. */
  method ReadColumn(p: seq<byte>, cursor: nat, rows: nat) returns (ok: bool, c: WireColumn, cursor': nat)
    ensures ok ==> Describes(p, cursor, c, rows) && c.typeId <= 6 && cursor' == cursor + Size(c, rows)
    ensures forall w :: Describes(p, cursor, w, rows) && w.typeId <= 6 ==> ok && c == w
  {
    hide NumberIn, ValuesAt, BitsAt, Pow256, SizeOf;
    c, cursor' := WireColumn(0, 0, [], [], false, []), cursor;
    var index, typeId, mode, count;
    ok, index, typeId, mode, count := ReadHeader(p, cursor);
    if !ok || count != rows || typeId > 6 {
      return false, c, cursor';
    }
    ok, c, cursor' := ReadValues(p, cursor, index, typeId, rows);
    if !ok { return; }
    if mode == 1 {
      var bits;
      ok, bits, cursor' := ReadBitmap(p, cursor', rows);
      if !ok { return; }
      ghost var plain := c;
      c := c.(hasValidity := true, validity := bits);
      AppendCodec.SameValues(p, cursor, plain, c, rows);
      AppendCodec.SameBitmap(p, cursor, c, rows);
      assert forall w :: Describes(p, cursor, w, rows) ==> w.index == c.index && w.typeId == c.typeId && w.hasValidity;
      assert forall w :: Describes(p, cursor, w, rows) ==> AppendCodec.SameButBits(p, cursor, w, c, rows);
    } else if mode != 0 {
      ok := false;
    }
  }

  predicate Known(w: seq<WireColumn>) { forall i :: 0 <= i < |w| ==> w[i].typeId <= 6 }

  /** The columns of a response, in the order of the payload. */
  method ParseScan(p: seq<byte>, ghost n: nat, ghost w: seq<WireColumn>) returns (ok: bool, rows: nat, columns: seq<WireColumn>)
    ensures ok ==> DescribesResponse(p, rows, columns) && Known(columns)
    ensures DescribesResponse(p, n, w) && Known(w) ==> ok && rows == n && columns == w
  {
    hide Describes, Size, NumberIn;
    rows, columns := 0, [];
    var count, cursor;
    ok, rows, cursor := ReadScalar(p, 0, 4);
    if !ok { return; }
    ok, count, cursor := ReadScalar(p, cursor, 2);
    if !ok { return; }
    for i := 0 to count
      invariant |columns| == i && DescribesAll(p, 6, columns, rows) && Known(columns)
      invariant cursor == 6 + TotalSize(columns, rows)
      invariant DescribesResponse(p, n, w) && Known(w) ==> columns == w[..i]
    {
      if DescribesResponse(p, n, w) && Known(w) {
        AppendCodec.DescribesOne(p, 6, w, n, i);
      }
      var c, next;
      ok, c, next := ReadColumn(p, cursor, rows);
      if !ok {
        return;
      }
      DescribesAllLast(p, 6, columns, c, rows);
      columns, cursor := columns + [c], next;
    }
    ok := true;
  }

  /** Python's slice: its ends are moved into the sequence. */
  function Slice(data: seq<byte>, from: nat, to: nat): seq<byte>
    requires from <= to
  {
    data[if from < |data| then from else |data|..if to < |data| then to else |data|]
  }

  /** What the client makes of a cell: a bool is True or False. */
  function Decoded(typeId: nat, cell: Cell): Value {
    var v := ValueOf(cell);
    if typeId == 3 && v.Fixed? then Fixed(if v.raw != 0 then 1 else 0) else v
  }

  /** The list of values of one column. */
  method DecodeColumn(c: WireColumn, rows: nat) returns (values: seq<Value>)
    requires ColumnFormat.WellFormed(c, rows) && c.typeId <= 6
    ensures |values| == rows
    ensures Usable(c, rows) ==> forall i :: 0 <= i < rows ==> values[i] == Decoded(c.typeId, CellAt(c, rows, i))
  {
    values := [];
    var offset := 0;
    for i := 0 to rows
      invariant |values| == i
      invariant Varlen(c.typeId) ==> offset == SumTo(c.lengths, i)
      invariant Usable(c, rows) ==> forall j :: 0 <= j < i ==> values[j] == Decoded(c.typeId, CellAt(c, rows, j))
    {
      var valid := !c.hasValidity || c.validity[i];
      if Varlen(c.typeId) {
        SumToMonotone(c.lengths, i + 1, rows);
        var chunk := Slice(c.data, offset, offset + c.lengths[i]);
        offset := offset + c.lengths[i];
        values := values + [if valid then Content(chunk) else Missing];
      } else {
        NumberFits(SizeOf(c.typeId), i, rows);
        var raw := NumberAt(c.data, SizeOf(c.typeId), i);
        values := values + [if !valid then Missing else if c.typeId == 3 then Fixed(if raw != 0 then 1 else 0) else Fixed(raw)];
      }
    }
  }

  /** Columns that share an index are the same column. */
  predicate Agreeing(w: seq<WireColumn>) {
    forall i, j :: 0 <= i < |w| && 0 <= j < |w| && w[i].index == w[j].index ==> w[i] == w[j]
  }

  predicate AllUsable(w: seq<WireColumn>, rows: nat) { forall i :: 0 <= i < |w| ==> Usable(w[i], rows) }

  function DecodedRow(w: seq<WireColumn>, rows: nat, r: nat): (row: ValueRow)
    requires AllUsable(w, rows) && r < rows
    ensures |row| == |w|
  {
    seq(|w|, i requires 0 <= i < |w| => Decoded(w[i].typeId, CellAt(w[i], rows, r)))
  }

  function Indices(w: seq<WireColumn>): (s: seq<nat>)
    ensures |s| == |w|
  {
    seq(|w|, i requires 0 <= i < |w| => w[i].index)
  }

  /** The last part of the client's scan: values by index, and from them the rows in the order of the request. */
  method BuildRows(w: seq<WireColumn>, rows: nat, requested: seq<nat>) returns (ok: bool, result: seq<ValueRow>)
    requires Known(w) && AllWellFormed(w, rows)
    ensures AllUsable(w, rows) && Agreeing(w) && requested == Indices(w) ==>
              ok && |result| == rows && forall r :: 0 <= r < rows ==> result[r] == DecodedRow(w, rows, r)
  {
    hide ColumnFormat.WellFormed, Usable, Decoded, CellAt;
    var data: map<nat, seq<Value>> := map[];
    for i := 0 to |w|
      invariant forall k :: k in data <==> exists j :: 0 <= j < i && w[j].index == k
      invariant forall k :: k in data ==> |data[k]| == rows
      invariant AllUsable(w, rows) && Agreeing(w) ==>
                  forall j :: 0 <= j < i ==> HoldsColumn(data, w[j], rows)
    {
      var values := DecodeColumn(w[i], rows);
      data := data[w[i].index := values];
    }
    ok, result := true, [];
    if rows > 0 && exists i :: 0 <= i < |requested| && requested[i] !in data {
      return false, [];
    }
    for r := 0 to rows
      invariant |result| == r
      invariant AllUsable(w, rows) && Agreeing(w) && requested == Indices(w) ==>
                  forall q :: 0 <= q < r ==> result[q] == DecodedRow(w, rows, q)
    {
      var row := seq(|requested|, i requires 0 <= i < |requested| => data[requested[i]][r]);
      if AllUsable(w, rows) && Agreeing(w) && requested == Indices(w) {
        assert forall i :: 0 <= i < |w| ==> HoldsColumn(data, w[i], rows);
        assert row == DecodedRow(w, rows, r);
      }
      result := result + [row];
    }
  }

  ghost predicate HoldsColumn(data: map<nat, seq<Value>>, c: WireColumn, rows: nat)
    requires Usable(c, rows)
  {
    && c.index in data && |data[c.index]| == rows
    && forall r :: 0 <= r < rows ==> data[c.index][r] == Decoded(c.typeId, CellAt(c, rows, r))
  }

  // ---------- The round trip ----------

  /** The value that arrives: a bool is 0 or 1. */
  function Normal(t: FieldType, v: Value): Value {
    if t.Bool? && v.Fixed? then Fixed(if v.raw != 0 then 1 else 0) else v
  }

  function NormalRow(outs: seq<Output>, row: ValueRow): (r: ValueRow)
    requires |row| == |outs|
    ensures |r| == |outs|
  {
    seq(|outs|, i requires 0 <= i < |outs| => Normal(outs[i].ftype, row[i]))
  }

  /** The sizes fit their fields on the wire, and outputs of one column have one type. */
  predicate Transmissible(outs: seq<Output>, rows: seq<ValueRow>) {
    && RowsTyped(outs, rows) && |rows| < Pow256(4) && |outs| < Pow256(2)
    && (forall i :: 0 <= i < |outs| ==>
          outs[i].index < Pow256(2) && |SentText(Column(rows, i))| < Pow256(4))
    && forall i, j :: 0 <= i < |outs| && 0 <= j < |outs| && outs[i].index == outs[j].index ==>
         outs[i].ftype == outs[j].ftype && Column(rows, i) == Column(rows, j)
  }

  lemma {:induction false} SentTextLength(values: seq<Value>, r: nat)
    requires r <= |values|
    ensures SumTo(SentLengths(values), r) == |SentText(values[..r])|
  {
    if r != 0 {
      SentTextLength(values, r - 1);
      assert values[..r][..r - 1] == values[..r - 1];
    }
  }

  lemma {:induction false} SentTextPrefix(values: seq<Value>, r: nat)
    requires r <= |values|
    ensures SentText(values[..r]) <= SentText(values)
  {
    if r == |values| {
      assert values[..r] == values;
    } else {
      SentTextPrefix(values[..|values| - 1], r);
      assert values[..|values| - 1][..r] == values[..r];
    }
  }

  lemma SentTextAt(values: seq<Value>, r: nat)
    requires r < |values|
    ensures SumTo(SentLengths(values), |values|) == |SentText(values)|
    ensures TextAt(SentLengths(values), SentText(values), r) == SentBytes(values[r])
  {
    hide SentText;
    SentTextLength(values, |values|);
    assert values[..|values|] == values;
    SentTextLength(values, r);
    SentTextPrefix(values, r + 1);
    SentTextStep(values, r);
    ScanRefinement.PrefixOfPrefix(SentText(values), SentText(values[..r]), SentBytes(values[r]));
  }

  lemma SentTextStep(values: seq<Value>, r: nat)
    requires r < |values|
    ensures SentText(values[..r + 1]) == SentText(values[..r]) + SentBytes(values[r])
  {
    assert values[..r + 1][..r] == values[..r];
  }

  /** A column of the response is well formed, and its cells decode to the values that went in. */
  lemma ColumnRestored(out: Output, values: seq<Value>)
    requires ValuesFit(out.ftype, values) && |values| < Pow256(4) && out.index < Pow256(2)
    requires |SentText(values)| < Pow256(4)
    ensures var w, n := WireOf(out, RenderedColumn(out.ftype, values)), |values|;
            && ColumnFormat.WellFormed(w, n) && Usable(w, n)
            && forall r :: 0 <= r < n ==> Decoded(w.typeId, CellAt(w, n, r)) == Normal(out.ftype, values[r])
  {
    hide RenderedColumn, Packed, NumberAt, SentText, SumTo, Pow256;
    RenderedShape(out.ftype, values);
    var w, n := WireOf(out, RenderedColumn(out.ftype, values)), |values|;
    SentTextLength(values, n);
    assert values[..n] == values;
    SentRawsFit(out.ftype, values);
    forall r | 0 <= r < n
      ensures Decoded(w.typeId, CellAt(w, n, r)) == Normal(out.ftype, values[r])
    {
      if IsVarlen(out.ftype) {
        SentTextAt(values, r);
      } else {
        PackedAt(SentRaws(out.ftype, values), Width(out.ftype), r);
      }
    }
  }

  lemma SentRawsFit(t: FieldType, values: seq<Value>)
    requires ValuesFit(t, values)
    ensures !IsVarlen(t) ==> forall r :: 0 <= r < |values| ==> SentRaws(t, values)[r] < Pow256(Width(t))
    ensures IsVarlen(t) ==> forall r :: 0 <= r < |values| ==> SentLengths(values)[r] < Pow256(4)
  {
    assert Pow256(1) == 256;
  }

  /**
   Whatever rows a scan emits, the client gets them back: the response that
   the server makes of their buffers decodes to the same rows, nulls included.
   */
  lemma ScanRoundTrip(outs: seq<Output>, rows: seq<ValueRow>)
    requires Transmissible(outs, rows)
    ensures var w, n := WireColumns(outs, Rendered(outs, rows)), |rows|;
            && AllWellFormed(w, n) && Known(w) && AllUsable(w, n) && Agreeing(w)
            && Indices(w) == seq(|outs|, i requires 0 <= i < |outs| => outs[i].index)
            && forall r :: 0 <= r < n ==> DecodedRow(w, n, r) == NormalRow(outs, rows[r])
  {
    hide Rendered, Restored, SentText, Column, Pow256, ValueFits;
    var w, n := WireColumns(outs, Rendered(outs, rows)), |rows|;
    forall i | 0 <= i < |outs|
      ensures Restored(outs, rows, w[i], i) && w[i] == WireOf(outs[i], RenderedColumn(outs[i].ftype, Column(rows, i)))
    {
      RenderedByColumn(outs, rows, i);
      RestoredAt(outs, rows, i);
    }
    AllRestored(outs, rows, w);
  }

  ghost predicate Restored(outs: seq<Output>, rows: seq<ValueRow>, c: WireColumn, i: nat)
    requires RowsFit(outs, rows) && i < |outs|
  {
    && ColumnFormat.WellFormed(c, |rows|) && Usable(c, |rows|)
    && forall r :: 0 <= r < |rows| ==> Decoded(c.typeId, CellAt(c, |rows|, r)) == Normal(outs[i].ftype, rows[r][i])
  }

  lemma RestoredAt(outs: seq<Output>, rows: seq<ValueRow>, i: nat)
    requires Transmissible(outs, rows) && i < |outs|
    ensures Restored(outs, rows, WireOf(outs[i], RenderedColumn(outs[i].ftype, Column(rows, i))), i)
  {
    hide RenderedColumn, SentText, ColumnFormat.WellFormed, Usable, Decoded, CellAt, Normal, Pow256, ValueFits;
    ColumnRestored(outs[i], Column(rows, i));
  }

  lemma AllRestored(outs: seq<Output>, rows: seq<ValueRow>, w: seq<WireColumn>)
    requires RowsFit(outs, rows) && |w| == |outs|
    requires forall i :: 0 <= i < |outs| ==> Restored(outs, rows, w[i], i)
    ensures AllWellFormed(w, |rows|) && AllUsable(w, |rows|)
    ensures forall r :: 0 <= r < |rows| ==> DecodedRow(w, |rows|, r) == NormalRow(outs, rows[r])
  {
    hide ColumnFormat.WellFormed, Usable, Decoded, CellAt, Normal;
    forall r | 0 <= r < |rows|
      ensures DecodedRow(w, |rows|, r) == NormalRow(outs, rows[r])
    {
      assert forall i :: 0 <= i < |outs| ==> Restored(outs, rows, w[i], i);
    }
  }

  lemma RowCountSent(outs: seq<Output>, rows: seq<ValueRow>)
    requires Transmissible(outs, rows)
    ensures outs != [] ==> |Rendered(outs, rows)[0].validity| == |rows|
  {
    hide Rendered, RenderedColumn, SentText, Pow256, ValueFits;
    if outs != [] {
      RenderedByColumn(outs, rows, 0);
      ValuesFitColumn(outs, rows, 0);
      RenderedShape(outs[0].ftype, Column(rows, 0));
    }
  }

  lemma ValuesFitColumn(outs: seq<Output>, rows: seq<ValueRow>, i: nat)
    requires Transmissible(outs, rows) && i < |outs|
    ensures ValuesFit(outs[i].ftype, Column(rows, i))
  {
    hide SentText, Pow256, ValueFits;
  }

  /** The response to `rows`, with no rows if there are no output columns. */
  lemma NothingSent(outs: seq<Output>, rows: seq<ValueRow>)
    requires Transmissible(outs, rows) && outs == []
    ensures Transmissible(outs, []) && WireColumns(outs, Rendered(outs, rows)) == WireColumns(outs, Rendered(outs, []))
  {
    hide Pow256;
    assert Rendered(outs, rows) == [] && Rendered(outs, []) == [];
  }

  /**
   A scan response from end to end: the server encodes the buffers of the rows
   that it found, and the client, which asked for these columns, parses the
   payload and builds its rows. They are the rows that were found; without an
   output column the client gets no row at all.
   */
  method ScanResponse(outs: seq<Output>, columns: seq<OutputColumn>, ghost rows: seq<ValueRow>)
      returns (ok: bool, result: seq<ValueRow>)
    requires Transmissible(outs, rows) && columns == Rendered(outs, rows)
    ensures ok && |result| == if outs == [] then 0 else |rows|
    ensures forall r :: 0 <= r < |result| ==> result[r] == NormalRow(outs, rows[r])
  {
    hide Rendered, Transmissible, DescribesResponse, AllWellFormed, AllUsable, DecodedRow, NormalRow, Known, Agreeing, WireColumns, Pow256;
    Sent(outs, rows);
    ghost var sent := if outs == [] then [] else rows;
    ghost var w := WireColumns(outs, columns);
    ScanRoundTrip(outs, sent);
    var payload := EncodeScan(outs, columns);
    var n, parsed;
    ok, n, parsed := ParseScan(payload, |sent|, w);
    ok, result := BuildRows(parsed, n, seq(|outs|, i requires 0 <= i < |outs| => outs[i].index));
  }

  lemma Sent(outs: seq<Output>, rows: seq<ValueRow>)
    requires Transmissible(outs, rows)
    ensures RowsFit(outs, rows)
    ensures var sent, columns := if outs == [] then [] else rows, Rendered(outs, rows);
            && Transmissible(outs, sent) && WireColumns(outs, Rendered(outs, sent)) == WireColumns(outs, columns)
            && |sent| == (if columns == [] then 0 else |columns[0].validity|)
            && |sent| < Pow256(4) && |outs| < Pow256(2)
  {
    hide Rendered, SentText, ValueFits, Column;
    if outs == [] {
      NothingSent(outs, rows);
    } else {
      RowCountSent(outs, rows);
    }
  }
}
