/** An append request: the client builds the payload and the server takes it apart. */
module AppendCodec {
  import opened Bytes
  import opened Bitmap
  import opened NumberArrays
  import opened Wrappers
  import opened Table
  import opened Predicates
  import opened Views
  import opened DatasetEngine
  import opened ScanRefinement
  import opened ColumnFormat
  import opened WireNames

  // ---------- The client's values ----------

  /**
   A Python value by what the client's conversions make of it: int(), the bits
   of float(), the truth value, the UTF-8 bytes if it is a string, and the bytes
   if it is bytes or a bytearray. None stands for an exception or another class.
   */
  datatype PyValue =
    | PyNone
    | PyObject(asInt: Option<int>, asFloat: Option<nat>, truth: Option<bool>, utf8: Option<seq<byte>>, bytes: Option<seq<byte>>)

  datatype ClientColumn = ClientColumn(ftype: FieldType, values: seq<PyValue>)

  /** The numbers that struct.pack accepts for an integer type. */
  predicate IntFits(t: FieldType, n: int) {
    match t
    case Int32 => -0x8000_0000 <= n < 0x8000_0000
    case DictInt32 => -0x8000_0000 <= n < 0x8000_0000
    case Int64 => -0x8000_0000_0000_0000 <= n < 0x8000_0000_0000_0000
    case _ => false
  }

  /** Those are the numbers that some bits of the column stand for. */
  lemma IntFitsExactly(t: FieldType, n: int)
    requires t.Int32? || t.Int64?
    ensures IntFits(t, n) <==> exists raw: nat :: raw < Pow256(Width(t)) && Signed(t, raw) == n
  {
    Powers();
    if IntFits(t, n) {
      var raw: nat := if n >= 0 then n else if t.Int64? then n + 0x1_0000_0000_0000_0000 else n + 0x1_0000_0000;
      assert Signed(t, raw) == n;
    }
  }

  /** The bytes of a value in a string or bytes column. */
  function TextOf(t: FieldType, v: PyValue): Option<seq<byte>>
    requires v.PyObject?
  {
    match t
    case String => v.utf8
    case Blob => v.bytes
    case _ => None
  }

  /** The client packs `v` into a column of type `t` without an exception. */
  predicate Packable(t: FieldType, v: PyValue) {
    v.PyObject? ==>
      match t
      case Float64 => v.asFloat.Some? && v.asFloat.value < Pow256(8)
      case Bool => v.truth.Some?
      case String => v.utf8.Some? && |v.utf8.value| < Pow256(4)
      case Blob => v.bytes.Some? && |v.bytes.value| < Pow256(4)
      case _ => v.asInt.Some? && IntFits(t, v.asInt.value)
  }

  /** Two's complement. */
  function Complement(t: FieldType, n: int): nat
    requires IntFits(t, n)
  {
    if n >= 0 then n else if t.Int64? then n + 0x1_0000_0000_0000_0000 else n + 0x1_0000_0000
  }

  /** The bits that stand for a number in a column of type `t`. */
  function RawOf(t: FieldType, v: PyValue): nat
    requires Packable(t, v) && !IsVarlen(t)
  {
    if v.PyNone? then 0
    else if t.Float64? then v.asFloat.value
    else if t.Bool? then (if v.truth.value then 1 else 0)
    else Complement(t, v.asInt.value)
  }

  /** The cell that the server stores for a value: a None becomes a null with nothing under it. */
  function CellOf(t: FieldType, v: PyValue): Cell
    requires Packable(t, v)
  {
    if IsVarlen(t) then (if v.PyObject? then Text(true, TextOf(t, v).value) else Text(false, []))
    else Number(!v.PyNone?, RawOf(t, v))
  }

  predicate AllPackable(c: ClientColumn) {
    forall i :: 0 <= i < |c.values| ==> Packable(c.ftype, c.values[i])
  }

  predicate AnyNone(values: seq<PyValue>) { exists i :: 0 <= i < |values| && values[i].PyNone? }

  function Cells(c: ClientColumn): (cells: seq<Cell>)
    requires AllPackable(c)
    ensures |cells| == |c.values|
  {
    seq(|c.values|, i requires 0 <= i < |c.values| => CellOf(c.ftype, c.values[i]))
  }

  /** The column as the server is meant to receive it. */
  function Vector(c: ClientColumn): FieldVector
    requires AllPackable(c)
  {
    FieldVector(c.ftype, Cells(c), AnyNone(c.values))
  }

  lemma Powers()
    ensures Pow256(1) == 0x100 && Pow256(4) == 0x1_0000_0000 && Pow256(8) == 0x1_0000_0000_0000_0000
  {
    assert Pow256(2) == 0x1_0000;
    assert Pow256(6) == 0x1_0000_0000_0000;
  }

  lemma CellsOfClientFit(c: ClientColumn)
    requires AllPackable(c)
    ensures CellsFit(Vector(c))
  {
    Powers();
  }

  /**
   What a conversion gives survives the trip through the bits that the server
   stores: the integer, the float, or the truth value as 0 or 1.
   */
  lemma NumberSurvives(t: FieldType, v: PyValue)
    requires Packable(t, v) && v.PyObject? && IsNumeric(t)
    ensures NumberOf(t, RawOf(t, v)) ==
            if t.Float64? then Double(v.asFloat.value)
            else if t.Bool? then (if v.truth.value then 1.0 else 0.0)
            else v.asInt.value as real
  {
    hide Double;
  }

  // ---------- The client's packing ----------

  function TypeId(t: FieldType): (id: nat)
    ensures id <= 6 && (Varlen(id) <==> IsVarlen(t)) && SizeOf(id) == Width(t)
  {
    match t
    case Int32 => 0
    case Int64 => 1
    case Float64 => 2
    case Bool => 3
    case DictInt32 => 4
    case String => 5
    case Blob => 6
  }

  function TypeOf(id: nat): (t: FieldType)
    requires id <= 6
    ensures TypeId(t) == id
  {
    match id
    case 0 => Int32
    case 1 => Int64
    case 2 => Float64
    case 3 => Bool
    case 4 => DictInt32
    case 5 => String
    case _ => Blob
  }

  /** The ids of the types as both sides number them. */
  lemma WireTypeIds()
    ensures [TypeId(Int32), TypeId(Int64), TypeId(Float64), TypeId(Bool), TypeId(DictInt32), TypeId(String), TypeId(Blob)] ==
            [0, 1, 2, 3, 4, 5, 6]
  {
  }

  function Validities(values: seq<PyValue>): (bits: seq<bool>)
    ensures |bits| == |values|
  {
    seq(|values|, i requires 0 <= i < |values| => !values[i].PyNone?)
  }

  /** The column on the wire. */
  function WireOf(index: nat, c: ClientColumn): WireColumn
    requires AllPackable(c)
  {
    CellsOfClientFit(c);
    var f := Vector(c);
    WireColumn(index, TypeId(c.ftype),
               if IsVarlen(c.ftype) then Joined(f.cells) else Packed(Raws(f), Width(c.ftype)),
               if IsVarlen(c.ftype) then Lengths(f) else [],
               AnyNone(c.values), if AnyNone(c.values) then Validities(c.values) else [])
  }

  /** _pack_validity, unless every value is there. */
  method PackValidity(values: seq<PyValue>, validity: seq<bool>) returns (hasValidity: bool, bitmap: seq<byte>)
    requires validity == Validities(values)
    ensures hasValidity == AnyNone(values)
    ensures if hasValidity then Encodes(bitmap, validity) else bitmap == []
  {
    hide Encodes;
    hasValidity := false;
    for i := 0 to |validity|
      invariant hasValidity <==> exists j :: 0 <= j < i && values[j].PyNone?
    {
      if !validity[i] {
        hasValidity := true;
      }
    }
    bitmap := [];
    if hasValidity {
      bitmap := Pack(validity);
    }
  }

  /** _pack_values. */
  method PackValues(c: ClientColumn) returns (ok: bool, hasValidity: bool, bitmap: seq<byte>, packed: seq<byte>)
    requires !IsVarlen(c.ftype)
    ensures ok <==> AllPackable(c)
    ensures ok ==> var w := WireOf(0, c); packed == w.data && hasValidity == w.hasValidity && BitmapOf(bitmap, w)
  {
    hide Encodes, LittleEndian, Packed;
    var validity := [];
    var width := Width(c.ftype);
    ghost var raws: seq<nat> := [];
    packed, hasValidity, bitmap := [], false, [];
    NothingPacked(width);
    for i := 0 to |c.values|
      invariant validity == Validities(c.values)[..i]
      invariant |raws| == i && packed == Packed(raws, width)
      invariant forall j :: 0 <= j < i ==> Packable(c.ftype, c.values[j]) && raws[j] == RawOf(c.ftype, c.values[j])
    {
      var v := c.values[i];
      if !Packable(c.ftype, v) {
        return false, false, [], [];
      }
      validity := validity + [!v.PyNone?];
      PackedMore(raws, RawOf(c.ftype, v), width);
      packed := packed + LittleEndian(RawOf(c.ftype, v), width);
      raws := raws + [RawOf(c.ftype, v)];
    }
    CellsOfClientFit(c);
    assert raws == Raws(Vector(c));
    assert validity == Validities(c.values);
    hasValidity, bitmap := PackValidity(c.values, validity);
    ok := true;
  }

  lemma NothingPacked(w: nat)
    ensures Packed([], w) == []
  {
  }

  lemma PackedMore(numbers: seq<nat>, n: nat, w: nat)
    ensures Packed(numbers + [n], w) == Packed(numbers, w) + LittleEndian(n, w)
  {
    assert (numbers + [n])[..|numbers|] == numbers;
  }

  /** _pack_varlen. */
  method PackVarlen(c: ClientColumn)
      returns (ok: bool, hasValidity: bool, bitmap: seq<byte>, lengths: seq<byte>, data: seq<byte>)
    requires IsVarlen(c.ftype)
    ensures ok <==> AllPackable(c)
    ensures ok ==> var w := WireOf(0, c);
              data == w.data && lengths == Packed(w.lengths, 4) && hasValidity == w.hasValidity && BitmapOf(bitmap, w)
  {
    hide Encodes, LittleEndian, Packed, Joined;
    var validity := [];
    ghost var sizes: seq<nat>, cells: seq<Cell> := [], [];
    lengths, data, hasValidity, bitmap := [], [], false, [];
    NothingPacked(4);
    NothingJoined();
    for i := 0 to |c.values|
      invariant validity == Validities(c.values)[..i]
      invariant |sizes| == |cells| == i && lengths == Packed(sizes, 4) && data == Joined(cells)
      invariant forall j :: 0 <= j < i ==>
                  Packable(c.ftype, c.values[j]) && cells[j] == CellOf(c.ftype, c.values[j]) && sizes[j] == |cells[j].bytes|
    {
      var v := c.values[i];
      if !Packable(c.ftype, v) {
        return false, false, [], [], [];
      }
      validity := validity + [!v.PyNone?];
      ghost var cell := CellOf(c.ftype, v);
      PackedMore(sizes, |cell.bytes|, 4);
      JoinedMore(cells, cell);
      if v.PyNone? {
        lengths := lengths + LittleEndian(0, 4);
        assert data + [] == data;
      } else {
        var text := TextOf(c.ftype, v).value;
        lengths := lengths + LittleEndian(|text|, 4);
        data := data + text;
      }
      sizes, cells := sizes + [|cell.bytes|], cells + [cell];
    }
    CellsOfClientFit(c);
    assert cells == Cells(c) && sizes == Lengths(Vector(c));
    assert validity == Validities(c.values);
    hasValidity, bitmap := PackValidity(c.values, validity);
    ok := true;
  }

  lemma NothingJoined()
    ensures Joined([]) == []
  {
  }

  lemma JoinedMore(cells: seq<Cell>, cell: Cell)
    requires cell.Text?
    ensures Joined(cells + [cell]) == Joined(cells) + cell.bytes
  {
    assert (cells + [cell])[..|cells|] == cells;
  }

  // ---------- The client's request ----------

  datatype AppendRequest = AppendRequest(db: Name, dataset: Name, batchId: nat, columns: seq<ClientColumn>)

  /** All columns have one length, and there is at least one column. */
  predicate OneLength(columns: seq<ClientColumn>) {
    columns != [] && forall i :: 0 <= i < |columns| ==> |columns[i].values| == |columns[0].values|
  }

  predicate AllColumnsPackable(columns: seq<ClientColumn>) {
    forall i :: 0 <= i < |columns| ==> AllPackable(columns[i]) && DataFits(columns[i])
  }

  /** The strings of a column are short enough, all together, for the four bytes of their size. */
  predicate DataFits(c: ClientColumn)
    requires AllPackable(c)
  {
    IsVarlen(c.ftype) ==> |WireOf(0, c).data| < Pow256(4)
  }

  /** The requests that the client can build. */
  predicate Sendable(r: AppendRequest) {
    && |r.db| < Pow256(2) && |r.dataset| < Pow256(2) && r.batchId < Pow256(8)
    && OneLength(r.columns) && |r.columns[0].values| < Pow256(4) && |r.columns| < Pow256(2)
    && AllColumnsPackable(r.columns)
  }

  function WireColumns(columns: seq<ClientColumn>): (w: seq<WireColumn>)
    requires AllColumnsPackable(columns)
    ensures |w| == |columns|
  {
    seq(|columns|, i requires 0 <= i < |columns| => WireOf(i, columns[i]))
  }

  lemma WireOfWellFormed(index: nat, c: ClientColumn)
    requires AllPackable(c) && DataFits(c) && index < Pow256(2) && |c.values| < Pow256(4)
    ensures ColumnFormat.WellFormed(WireOf(index, c), |c.values|)
  {
    hide Packed, Joined;
    CellsOfClientFit(c);
  }

  /** One turn of the loop over the fields: the column is appended to the payload. */
  method AppendColumn(payload: seq<byte>, index: nat, c: ClientColumn, rows: nat) returns (ok: bool, payload': seq<byte>)
    requires |c.values| == rows < Pow256(4) && index < Pow256(2)
    ensures ok <==> AllPackable(c) && DataFits(c)
    ensures ok ==> payload <= payload' && |payload'| == |payload| + Size(WireOf(index, c), rows)
    ensures ok ==> Describes(payload', |payload|, WireOf(index, c), rows)
  {
    hide Describes, LittleEndian, Packed, Joined, Pow256, Encodes, AllPackable, AnyNone;
    var hasValidity, bitmap;
    var data, part: seq<byte> := [], [];
    if IsVarlen(c.ftype) {
      var lengths;
      ok, hasValidity, bitmap, lengths, data := PackVarlen(c);
      if !ok || |data| >= Pow256(4) {
        return false, payload;
      }
      part := LittleEndian(|data|, 4) + lengths;
    } else {
      ok, hasValidity, bitmap, data := PackValues(c);
      if !ok {
        return false, payload;
      }
    }
    ghost var w := WireOf(index, c);
    WireOfWellFormed(index, c);
    assert part == LengthPart(w) && data == w.data && hasValidity == w.hasValidity;
    var more := LittleEndian(index, 2) + [TypeId(c.ftype), ModeByte(hasValidity)] + LittleEndian(rows, 4) + part + data + bitmap;
    assert more == Layout(w, rows, bitmap);
    LayoutDescribes(payload, w, rows, bitmap);
    payload' := payload + more;
  }

  method AppendColumns(payload: seq<byte>, columns: seq<ClientColumn>, rows: nat) returns (ok: bool, payload': seq<byte>)
    requires rows < Pow256(4) && |columns| < Pow256(2)
    requires forall i :: 0 <= i < |columns| ==> |columns[i].values| == rows
    ensures ok <==> AllColumnsPackable(columns)
    ensures ok ==> payload <= payload' && |payload'| == |payload| + TotalSize(WireColumns(columns), rows)
    ensures ok ==> DescribesAll(payload', |payload|, WireColumns(columns), rows)
  {
    hide Describes, WireOf, AllPackable, DataFits, Pow256, Size;
    payload' := payload;
    for i := 0 to |columns|
      invariant AllColumnsPackable(columns[..i])
      invariant payload <= payload' && |payload'| == |payload| + TotalSize(WireColumns(columns[..i]), rows)
      invariant DescribesAll(payload', |payload|, WireColumns(columns[..i]), rows)
    {
      ghost var before := payload';
      ghost var done := WireColumns(columns[..i]);
      ok, payload' := AppendColumn(payload', i, columns[i], rows);
      if !ok {
        return;
      }
      assert WireColumns(columns[..i + 1]) == done + [WireOf(i, columns[i])];
      DescribesAllGrown(before, payload', |payload|, done, rows);
      DescribesAllLast(payload', |payload|, done, WireOf(i, columns[i]), rows);
    }
    assert columns[..|columns|] == columns;
    ok := true;
  }

  // ---------- The request as the server reads it ----------

  datatype WireRequest = WireRequest(db: seq<byte>, name: seq<byte>, batchId: nat, rows: nat, columns: seq<WireColumn>)

  /** The offset behind the two names. */
  function AfterNames(r: WireRequest): nat { 4 + |r.db| + |r.name| }

  function RequestSize(r: WireRequest): nat { AfterNames(r) + 14 + TotalSize(r.columns, r.rows) }

  predicate IndicesBelow(columns: seq<WireColumn>, n: nat) {
    forall i :: 0 <= i < |columns| ==> columns[i].index < n
  }

  predicate FixedPartIs(p: seq<byte>, r: WireRequest) {
    var at := AfterNames(r);
    && at + 14 <= |p| && NumberIn(p, at, 8) == r.batchId && NumberIn(p, at + 8, 4) == r.rows
    && NumberIn(p, at + 12, 2) == |r.columns|
  }

  /** The payload is the request `r`, up to unused bits of bitmaps and bytes behind it. */
  predicate DescribesRequest(p: seq<byte>, r: WireRequest) {
    && NameIs(p, 0, r.db) && NameIs(p, 2 + |r.db|, r.name) && FixedPartIs(p, r)
    && DescribesAll(p, AfterNames(r) + 14, r.columns, r.rows) && IndicesBelow(r.columns, |r.columns|)
  }

  /** The request of a client whose names are ASCII. */
  function WireRequestOf(r: AppendRequest): WireRequest
    requires Sendable(r)
  {
    WireRequest(Utf8(r.db), Utf8(r.dataset), r.batchId, |r.columns[0].values|, WireColumns(r.columns))
  }

  /** append_batch, up to sending: a payload that the server reads as the request if the names are ASCII. */
  method BuildAppend(r: AppendRequest) returns (ok: bool, payload: seq<byte>)
    ensures ok <==> Sendable(r)
    ensures ok ==> Head(r) <= payload && DescribesAll(payload, |Head(r)|, WireColumns(r.columns), |r.columns[0].values|)
    ensures ok && Ascii(r.db) && Ascii(r.dataset) ==>
              DescribesRequest(payload, WireRequestOf(r)) && |payload| == RequestSize(WireRequestOf(r))
  {
    hide Pow256, LittleEndian, Utf8, WireColumns, DescribesAll, AllColumnsPackable;
    ok, payload := false, [];
    if |r.db| >= Pow256(2) || |r.dataset| >= Pow256(2) || r.batchId >= Pow256(8) || !OneLength(r.columns) {
      return;
    }
    var rows := |r.columns[0].values|;
    if rows >= Pow256(4) || |r.columns| >= Pow256(2) {
      return;
    }
    var head := NameBytes(r.db) + NameBytes(r.dataset) + LittleEndian(r.batchId, 8) + LittleEndian(rows, 4)
      + LittleEndian(|r.columns|, 2);
    assert head == Head(r);
    ok, payload := AppendColumns(head, r.columns, rows);
    if ok && Ascii(r.db) && Ascii(r.dataset) {
      HeadDescribes(r, payload);
      ClientIndices(r.columns);
    }
  }

  lemma ClientIndices(columns: seq<ClientColumn>)
    requires AllColumnsPackable(columns)
    ensures IndicesBelow(WireColumns(columns), |columns|)
  {
  }

  /** The bytes in front of the columns. */
  function Head(r: AppendRequest): seq<byte>
    requires r.columns != []
  {
    NameBytes(r.db) + NameBytes(r.dataset) + LittleEndian(r.batchId, 8) + LittleEndian(|r.columns[0].values|, 4)
    + LittleEndian(|r.columns|, 2)
  }

  lemma HeadDescribes(r: AppendRequest, p: seq<byte>)
    requires Sendable(r) && Ascii(r.db) && Ascii(r.dataset) && Head(r) <= p
    ensures var w := WireRequestOf(r);
            && NameIs(p, 0, w.db) && NameIs(p, 2 + |w.db|, w.name) && FixedPartIs(p, w)
            && |Head(r)| == AfterNames(w) + 14
  {
    hide Pow256, LittleEndian, Utf8, WireColumns, NameIs, FixedPartIs, AllColumnsPackable;
    var a, b := NameBytes(r.db), NameBytes(r.dataset);
    var numbers := LittleEndian(r.batchId, 8) + LittleEndian(|r.columns[0].values|, 4) + LittleEndian(|r.columns|, 2);
    var rest := p[|Head(r)|..];
    assert Head(r) == a + b + numbers;
    NameReadsBack([], r.db, b + numbers + rest);
    assert p == [] + a + (b + numbers + rest);
    NameReadsBack(a, r.dataset, numbers + rest);
    assert p == a + b + (numbers + rest);
    NumbersDescribe(a + b, r, rest);
    assert p == (a + b) + numbers + rest;
  }

  lemma NumbersDescribe(names: seq<byte>, r: AppendRequest, rest: seq<byte>)
    requires Sendable(r) && |names| == AfterNames(WireRequestOf(r))
    ensures FixedPartIs(names + (LittleEndian(r.batchId, 8) + LittleEndian(|r.columns[0].values|, 4) +
                                 LittleEndian(|r.columns|, 2)) + rest, WireRequestOf(r))
  {
    hide Pow256, LittleEndian, FromLittleEndian, Utf8, WireColumns, AllColumnsPackable;
    var c, d, e := LittleEndian(r.batchId, 8), LittleEndian(|r.columns[0].values|, 4), LittleEndian(|r.columns|, 2);
    var p := names + (c + d + e) + rest;
    assert p == names + c + (d + e + rest);
    PieceAt(names, c, d + e + rest);
    assert p == (names + c) + d + (e + rest);
    PieceAt(names + c, d, e + rest);
    assert p == (names + c + d) + e + rest;
    PieceAt(names + c + d, e, rest);
    LittleEndianFits(r.batchId, 8);
    LittleEndianFits(|r.columns[0].values|, 4);
    LittleEndianFits(|r.columns|, 2);
  }

  // ---------- The server's parse ----------

  /** One turn of the loop over the fields. */
  method ReadField(p: seq<byte>, cursor: nat, rows: nat, fieldCount: nat) returns (ok: bool, c: WireColumn, cursor': nat)
    ensures ok ==> Describes(p, cursor, c, rows) && c.index < fieldCount && cursor' == cursor + Size(c, rows)
    ensures forall w :: Describes(p, cursor, w, rows) && w.index < fieldCount ==> ok && c == w
  {
    hide NumberIn, ValuesAt, BitsAt, Pow256, SizeOf;
    c, cursor' := WireColumn(0, 0, [], [], false, []), cursor;
    var index, typeId, mode, count;
    ok, index, typeId, mode, count := ReadHeader(p, cursor);
    if !ok || count != rows || index >= fieldCount {
      return false, c, cursor';
    }
    ok, c, cursor' := ReadValues(p, cursor, index, typeId, rows);
    if !ok { return; }
    if mode == 1 {
      var bits;
      ok, bits, cursor' := ReadBitmap(p, cursor', rows);
      if !ok { return; }
      ghost var plain := c;
      c := c.(hasValidity := true, validity := bits);
      SameValues(p, cursor, plain, c, rows);
      SameBitmap(p, cursor, c, rows);
      assert forall w :: Describes(p, cursor, w, rows) && w.index < fieldCount ==> SameButBits(p, cursor, w, c, rows);
    } else if mode != 0 {
      ok := false;
    }
  }

  lemma SameValues(p: seq<byte>, at: nat, c: WireColumn, d: WireColumn, rows: nat)
    requires ValuesAt(p, at, c, rows)
    requires d.typeId == c.typeId && d.data == c.data && d.lengths == c.lengths
    ensures ValuesAt(p, at, d, rows) && Values(c, rows) == Values(d, rows)
  {
    hide NumberIn;
  }

  /** `w` is `c` with some validity that the bitmap behind it shows. */
  predicate SameButBits(p: seq<byte>, at: nat, w: WireColumn, c: WireColumn, rows: nat) {
    && ColumnFormat.WellFormed(w, rows) && w.hasValidity && w.typeId == c.typeId && w.data == c.data
    && at + Size(w, rows) <= |p| && BitsAt(p, at + Values(w, rows) + |w.data|, w.validity)
  }

  lemma SameBitmap(p: seq<byte>, at: nat, c: WireColumn, rows: nat)
    requires c.hasValidity && |c.validity| == rows && at + Size(c, rows) <= |p|
    requires BitsAt(p, at + Values(c, rows) + |c.data|, c.validity)
    ensures forall w :: SameButBits(p, at, w, c, rows) ==> w.validity == c.validity
  {
    hide TestBit;
  }

  /** Each column goes to the place that its index names; a later one replaces an earlier one. */
  function Placed(columns: seq<WireColumn>, n: nat): (batches: seq<Option<WireColumn>>)
    requires IndicesBelow(columns, n)
    ensures |batches| == n
  {
    if columns == [] then seq(n, i => None)
    else
      var last := columns[|columns| - 1];
      Placed(columns[..|columns| - 1], n)[last.index := Some(last)]
  }

  lemma {:induction false} DescribesOne(p: seq<byte>, at: nat, w: seq<WireColumn>, rows: nat, i: nat)
    requires DescribesAll(p, at, w, rows) && i < |w|
    ensures Describes(p, at + TotalSize(w[..i], rows), w[i], rows)
    decreases i
  {
    hide Describes, Size;
    if i != 0 {
      assert w[..i][1..] == w[1..][..i - 1];
      DescribesOne(p, at + Size(w[0], rows), w[1..], rows, i - 1);
    }
  }

  /** The columns `w` are what stands at `at`, with indices that a request of `n` columns may have. */
  predicate Fields(p: seq<byte>, at: nat, w: seq<WireColumn>, rows: nat, n: nat) {
    DescribesAll(p, at, w, rows) && |w| == n && IndicesBelow(w, n)
  }

  lemma FieldAt(p: seq<byte>, at: nat, w: seq<WireColumn>, rows: nat, n: nat, i: nat)
    requires Fields(p, at, w, rows, n) && i < n
    ensures |w| == n && w[..i] + [w[i]] == w[..i + 1]
    ensures Describes(p, at + TotalSize(w[..i], rows), w[i], rows) && w[i].index < n
  {
    DescribesOne(p, at, w, rows, i);
  }

  lemma PlacedMore(columns: seq<WireColumn>, c: WireColumn, n: nat)
    requires IndicesBelow(columns, n) && c.index < n
    ensures IndicesBelow(columns + [c], n)
    ensures Placed(columns + [c], n) == Placed(columns, n)[c.index := Some(c)]
  {
    assert (columns + [c])[..|columns|] == columns;
  }

  method ReadFields(p: seq<byte>, cursor: nat, rows: nat, fieldCount: nat, ghost w: seq<WireColumn>)
      returns (ok: bool, columns: seq<WireColumn>, batches: seq<Option<WireColumn>>, cursor': nat)
    ensures ok ==> |columns| == fieldCount && DescribesAll(p, cursor, columns, rows) && IndicesBelow(columns, fieldCount)
    ensures ok ==> cursor' == cursor + TotalSize(columns, rows) && batches == Placed(columns, fieldCount)
    ensures DescribesAll(p, cursor, w, rows) && |w| == fieldCount && IndicesBelow(w, fieldCount) ==> ok && columns == w
  {
    hide Describes, Size, Fields, Placed, IndicesBelow, DescribesAll;
    columns, batches, cursor' := [], seq(fieldCount, i => None), cursor;
    NoFields(p, cursor, rows, fieldCount);
    FieldsMean(p, cursor, w, rows, fieldCount);
    for i := 0 to fieldCount
      invariant |columns| == i && DescribesAll(p, cursor, columns, rows) && IndicesBelow(columns, fieldCount)
      invariant cursor' == cursor + TotalSize(columns, rows) && batches == Placed(columns, fieldCount)
      invariant Fields(p, cursor, w, rows, fieldCount) ==> |w| == fieldCount && columns == w[..i]
    {
      if Fields(p, cursor, w, rows, fieldCount) {
        FieldAt(p, cursor, w, rows, fieldCount, i);
      }
      var c, next;
      ok, c, next := ReadField(p, cursor', rows, fieldCount);
      if !ok {
        return;
      }
      DescribesAllLast(p, cursor, columns, c, rows);
      PlacedMore(columns, c, fieldCount);
      columns, batches, cursor' := columns + [c], batches[c.index := Some(c)], next;
    }
    ok := true;
  }

  lemma NoFields(p: seq<byte>, at: nat, rows: nat, n: nat)
    ensures DescribesAll(p, at, [], rows) && TotalSize([], rows) == 0
    ensures IndicesBelow([], n) && Placed([], n) == seq(n, i => None)
  {
  }

  lemma FieldsMean(p: seq<byte>, at: nat, w: seq<WireColumn>, rows: nat, n: nat)
    ensures Fields(p, at, w, rows, n) <==> DescribesAll(p, at, w, rows) && |w| == n && IndicesBelow(w, n)
  {
  }

  /** The part of the request in front of its columns; the server looks at the batch id before it reads on. */
  method ReadRequestHead(p: seq<byte>) returns (ok: bool, db: seq<byte>, name: seq<byte>, batchId: nat, cursor: nat)
    ensures ok ==> NameIs(p, 0, db) && NameIs(p, 2 + |db|, name) && cursor == 12 + |db| + |name| <= |p| &&
                   batchId == NumberIn(p, 4 + |db| + |name|, 8)
    ensures forall d, n :: NameIs(p, 0, d) && NameIs(p, 2 + |d|, n) && 12 + |d| + |n| <= |p| ==> ok && db == d && name == n
  {
    hide NumberIn;
    db, name, batchId, cursor := [], [], 0, 0;
    ok, db, cursor := ReadName(p, 0);
    if !ok { return; }
    ok, name, cursor := ReadName(p, cursor);
    if !ok { return; }
    ok, batchId, cursor := ReadScalar(p, cursor, 8);
  }

  /** HandleAppendBatch up to the append: exactly the payloads that describe a request of permitted size are parsed. */
  method ParseAppend(p: seq<byte>, maxRows: nat, ghost w: WireRequest)
      returns (ok: bool, r: WireRequest, batches: seq<Option<WireColumn>>, cursor: nat)
    ensures ok ==> DescribesRequest(p, r) && (maxRows == 0 || r.rows <= maxRows)
    ensures ok ==> cursor == RequestSize(r) <= |p| && batches == Placed(r.columns, |r.columns|)
    ensures DescribesRequest(p, w) && (maxRows == 0 || w.rows <= maxRows) ==> ok && r == w
  {
    hide NumberIn, DescribesAll, NameIs, Placed, IndicesBelow, Pow256, TotalSize;
    batches := [];
    var rows, fieldCount, db, name, batchId, columns;
    r := WireRequest([], [], 0, 0, []);
    ok, db, name, batchId, cursor := ReadRequestHead(p);
    if !ok { return; }
    ok, rows, cursor := ReadScalar(p, cursor, 4);
    if !ok { return; }
    ok, fieldCount, cursor := ReadScalar(p, cursor, 2);
    if !ok { return; }
    if maxRows > 0 && rows > maxRows {
      ok := false;
      return;
    }
    ghost var at := cursor;
    ok, columns, batches, cursor := ReadFields(p, cursor, rows, fieldCount, w.columns);
    if !ok { return; }
    r := WireRequest(db, name, batchId, rows, columns);
    AllWithin(p, at, columns, rows);
  }

  lemma {:induction false} AllWithin(p: seq<byte>, at: nat, columns: seq<WireColumn>, rows: nat)
    requires DescribesAll(p, at, columns, rows) && at <= |p|
    ensures at + TotalSize(columns, rows) <= |p|
    decreases columns
  {
    hide Size;
    if columns != [] {
      AllWithin(p, at + Size(columns[0], rows), columns[1..], rows);
    }
  }

  // ---------- What the parsed columns hold ----------

  /** The batch that the engine is given. */
  function BatchOf(c: WireColumn, rows: nat): FieldBatch
    requires Usable(c, rows)
  {
    FieldBatch(TypeOf(c.typeId), seq(rows, i requires 0 <= i < rows => CellAt(c, rows, i)), c.hasValidity)
  }

  /** A column that the client built comes out as the cells of the client's values. */
  lemma ColumnRestored(index: nat, c: ClientColumn)
    requires AllPackable(c) && DataFits(c) && index < Pow256(2) && |c.values| < Pow256(4)
    ensures Usable(WireOf(index, c), |c.values|)
    ensures BatchOf(WireOf(index, c), |c.values|) == FieldBatch(c.ftype, Cells(c), AnyNone(c.values))
  {
    hide Packed, Joined, NumberAt, Pow256, SumTo;
    CellsOfClientFit(c);
    WireOfWellFormed(index, c);
    var w, f, rows := WireOf(index, c), Vector(c), |c.values|;
    if IsVarlen(c.ftype) {
      JoinedLength(f, rows);
      assert f.cells[..rows] == f.cells;
    }
    var cells := BatchOf(w, rows).cells;
    forall i | 0 <= i < rows
      ensures cells[i] == Cells(c)[i]
    {
      assert c.values[i].PyNone? ==> AnyNone(c.values);
      if IsVarlen(c.ftype) {
        JoinedAt(f, i);
      } else {
        PackedAt(Raws(f), Width(c.ftype), i);
      }
    }
  }

  lemma {:induction false} PlacedInOrder(columns: seq<WireColumn>, n: nat)
    requires IndicesBelow(columns, n)
    requires forall i :: 0 <= i < |columns| ==> columns[i].index == i
    ensures forall i :: 0 <= i < |columns| ==> Placed(columns, n)[i] == Some(columns[i])
    decreases columns
  {
    if columns != [] {
      PlacedInOrder(columns[..|columns| - 1], n);
    }
  }

  /**
   The round trip: whatever request the server reads from a payload that
   describes the client's request, it is that request, and every batch holds
   the type, the values and the nulls of the client's column.
   */
  lemma AppendRoundTrip(r: AppendRequest, p: seq<byte>, w: WireRequest)
    requires Sendable(r) && DescribesRequest(p, WireRequestOf(r)) && DescribesRequest(p, w)
    ensures w == WireRequestOf(r)
    ensures forall i :: 0 <= i < |r.columns| ==>
              var c, batch := r.columns[i], Placed(w.columns, |w.columns|)[i];
              && batch.Some? && Usable(batch.value, w.rows) && AllPackable(c)
              && BatchOf(batch.value, w.rows) == FieldBatch(c.ftype, Cells(c), AnyNone(c.values))
  {
    hide DescribesAll, WireOf, AllPackable, DataFits, Usable, BatchOf, Pow256, Utf8, FixedPartIs;
    RequestUnique(p, w, WireRequestOf(r));
    IndicesInOrder(r.columns);
    PlacedInOrder(w.columns, |w.columns|);
    forall i | 0 <= i < |r.columns|
      ensures AllPackable(r.columns[i]) && Usable(WireOf(i, r.columns[i]), w.rows)
      ensures BatchOf(WireOf(i, r.columns[i]), w.rows) ==
              FieldBatch(r.columns[i].ftype, Cells(r.columns[i]), AnyNone(r.columns[i].values))
    {
      ColumnRestored(i, r.columns[i]);
    }
  }

  lemma IndicesInOrder(columns: seq<ClientColumn>)
    requires AllColumnsPackable(columns)
    ensures forall i :: 0 <= i < |columns| ==> WireColumns(columns)[i].index == i
  {
  }

  lemma RequestUnique(p: seq<byte>, v: WireRequest, w: WireRequest)
    requires DescribesRequest(p, v) && DescribesRequest(p, w)
    ensures v == w
  {
    hide NumberIn, Describes, Pow256;
    NameUnique(p, 0, v.db, w.db);
    NameUnique(p, 2 + |v.db|, v.name, w.name);
    ColumnsUnique(p, AfterNames(v) + 14, v.columns, w.columns, v.rows);
  }

  lemma NameUnique(p: seq<byte>, at: nat, a: seq<byte>, b: seq<byte>)
    requires NameIs(p, at, a) && NameIs(p, at, b)
    ensures a == b
  {
  }

  lemma {:induction false} ColumnsUnique(p: seq<byte>, at: nat, v: seq<WireColumn>, w: seq<WireColumn>, rows: nat)
    requires DescribesAll(p, at, v, rows) && DescribesAll(p, at, w, rows) && |v| == |w|
    ensures v == w
    decreases v
  {
    hide Describes, Size;
    if v != [] {
      DescribesUnique(p, at, v[0], w[0], rows);
      ColumnsUnique(p, at + Size(v[0], rows), v[1..], w[1..], rows);
      assert v == [v[0]] + v[1..] && w == [w[0]] + w[1..];
    }
  }
}
