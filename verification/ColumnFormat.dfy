/** The form of one column on the wire, shared by append requests and scan responses. */
module ColumnFormat {
  import opened Bytes
  import opened Bitmap
  import opened NumberArrays
  import opened Table
  import Views
  import Arithmetic

  /** `data` holds the fixed-width values, or the bytes of all strings; `lengths` is for strings only. */
  datatype WireColumn = WireColumn(index: nat, typeId: nat, data: seq<byte>, lengths: seq<nat>,
                                   hasValidity: bool, validity: seq<bool>)

  /** string, bytes and vector_float32. */
  predicate Varlen(typeId: nat) { typeId == 5 || typeId == 6 || typeId == 9 }

  /** TypeSize of the server, TYPE_SIZES of the client; ids without values of a fixed width have size 0. */
  function SizeOf(typeId: nat): nat {
    match typeId
    case 0 => 4
    case 1 => 8
    case 2 => 8
    case 3 => 1
    case 4 => 4
    case _ => 0
  }

  predicate WellFormed(c: WireColumn, rows: nat) {
    && c.index < Pow256(2) && c.typeId < 256 && rows < Pow256(4)
    && (if Varlen(c.typeId) then
          |c.lengths| == rows && |c.data| < Pow256(4) &&
          forall i :: 0 <= i < rows ==> c.lengths[i] < Pow256(4)
        else
          c.lengths == [] && |c.data| == SizeOf(c.typeId) * rows)
    && |c.validity| == (if c.hasValidity then rows else 0)
  }

  /** The offset of the values in the column. */
  function Values(c: WireColumn, rows: nat): nat { if Varlen(c.typeId) then 12 + 4 * rows else 8 }

  function Size(c: WireColumn, rows: nat): nat {
    Values(c, rows) + |c.data| + if c.hasValidity then BitmapSize(rows) else 0
  }

  function NumberIn(p: seq<byte>, at: nat, k: nat): nat
    requires at + k <= |p|
  {
    FromLittleEndian(p[at..at + k])
  }

  predicate LengthsAt(p: seq<byte>, at: nat, c: WireColumn, rows: nat)
    requires at + 4 + 4 * rows <= |p|
  {
    NumberIn(p, at, 4) == |c.data| && Numbers(p[at + 4..at + 4 + 4 * rows], 4, rows) == c.lengths
  }

  predicate BitsAt(p: seq<byte>, at: nat, bits: seq<bool>)
    requires at + BitmapSize(|bits|) <= |p|
  {
    forall i :: 0 <= i < |bits| ==> (bits[i] <==> TestBit(p[at + i / 8], i % 8))
  }

  predicate ValuesAt(p: seq<byte>, at: nat, c: WireColumn, rows: nat) {
    && at + Values(c, rows) + |c.data| <= |p|
    && (Varlen(c.typeId) ==> LengthsAt(p, at + 8, c, rows))
    && p[at + Values(c, rows)..at + Values(c, rows) + |c.data|] == c.data
  }

  /** The bytes of `p` from `at` on are the column `c` of `rows` rows. The unused bits of a bitmap are free. */
  predicate Describes(p: seq<byte>, at: nat, c: WireColumn, rows: nat) {
    && WellFormed(c, rows) && at + Size(c, rows) <= |p|
    && NumberIn(p, at, 2) == c.index && p[at + 2] == c.typeId
    && p[at + 3] == (if c.hasValidity then 1 else 0) && NumberIn(p, at + 4, 4) == rows
    && ValuesAt(p, at, c, rows)
    && (c.hasValidity ==> BitsAt(p, at + Values(c, rows) + |c.data|, c.validity))
  }

  /** The columns follow each other without gaps. */
  predicate DescribesAll(p: seq<byte>, at: nat, columns: seq<WireColumn>, rows: nat)
    decreases columns
  {
    columns == [] ||
    (Describes(p, at, columns[0], rows) && DescribesAll(p, at + Size(columns[0], rows), columns[1..], rows))
  }

  function TotalSize(columns: seq<WireColumn>, rows: nat): nat {
    if columns == [] then 0 else Size(columns[0], rows) + TotalSize(columns[1..], rows)
  }

  lemma {:induction false} DescribesAllLast(p: seq<byte>, at: nat, columns: seq<WireColumn>, c: WireColumn, rows: nat)
    ensures DescribesAll(p, at, columns + [c], rows) <==>
            DescribesAll(p, at, columns, rows) && Describes(p, at + TotalSize(columns, rows), c, rows)
    ensures TotalSize(columns + [c], rows) == TotalSize(columns, rows) + Size(c, rows)
    decreases columns
  {
    hide Describes, Size;
    if columns == [] {
      assert [c][1..] == [];
    } else {
      DescribesAllLast(p, at + Size(columns[0], rows), columns[1..], c, rows);
      assert (columns + [c])[1..] == columns[1..] + [c];
    }
  }

  lemma SamePiece(p: seq<byte>, q: seq<byte>, i: nat, j: nat)
    requires p <= q && i <= j <= |p|
    ensures q[i..j] == p[i..j]
  {
  }

  /** What stands in a payload stays there when the payload grows. */
  lemma DescribesGrown(p: seq<byte>, q: seq<byte>, at: nat, c: WireColumn, rows: nat)
    requires Describes(p, at, c, rows) && p <= q
    ensures Describes(q, at, c, rows)
  {
    hide FromLittleEndian, NumberArrays.Numbers, Pow256, TestBit;
    SamePiece(p, q, at, at + 2);
    SamePiece(p, q, at + 4, at + 8);
    var values := at + Values(c, rows);
    SamePiece(p, q, values, values + |c.data|);
    if Varlen(c.typeId) {
      SamePiece(p, q, at + 8, at + 12);
      SamePiece(p, q, at + 12, at + 12 + 4 * rows);
    }
  }

  lemma {:induction false} DescribesAllGrown(p: seq<byte>, q: seq<byte>, at: nat, columns: seq<WireColumn>, rows: nat)
    requires DescribesAll(p, at, columns, rows) && p <= q
    ensures DescribesAll(q, at, columns, rows)
    decreases columns
  {
    hide Describes, Size;
    if columns != [] {
      DescribesGrown(p, q, at, columns[0], rows);
      DescribesAllGrown(p, q, at + Size(columns[0], rows), columns[1..], rows);
    }
  }

  // ---------- Writing ----------

  function ModeByte(hasValidity: bool): byte { if hasValidity then 1 else 0 }

  function LengthPart(c: WireColumn): seq<byte> {
    if Varlen(c.typeId) then LittleEndian(|c.data|, 4) + Packed(c.lengths, 4) else []
  }

  /** The bytes of a column, given its bitmap. */
  function Layout(c: WireColumn, rows: nat, bitmap: seq<byte>): seq<byte>
    requires WellFormed(c, rows)
  {
    LittleEndian(c.index, 2) + [c.typeId, ModeByte(c.hasValidity)] + LittleEndian(rows, 4) + LengthPart(c) + c.data + bitmap
  }

  /** The bitmap that goes with a column. */
  predicate BitmapOf(bitmap: seq<byte>, c: WireColumn) {
    if c.hasValidity then Encodes(bitmap, c.validity) else bitmap == []
  }

  lemma PieceAt(a: seq<byte>, x: seq<byte>, b: seq<byte>)
    ensures (a + x + b)[|a|..|a| + |x|] == x
  {
  }

  lemma LengthPartSize(c: WireColumn, rows: nat)
    requires WellFormed(c, rows)
    ensures |LengthPart(c)| == Values(c, rows) - 8
  {
  }

  lemma Regroupings(p: seq<byte>, h: seq<byte>, l: seq<byte>, d: seq<byte>, b: seq<byte>)
    ensures p + (h + l + d + b) == p + h + (l + d + b)
    ensures p + (h + l + d + b) == (p + h) + l + (d + b)
    ensures p + (h + l + d + b) == (p + h + l) + d + b
    ensures p + (h + l + d + b) == (p + h + l + d) + b
  {
  }

  function Header(c: WireColumn, rows: nat): seq<byte>
    requires WellFormed(c, rows)
  {
    LittleEndian(c.index, 2) + [c.typeId, ModeByte(c.hasValidity)] + LittleEndian(rows, 4)
  }

  /** A column that is written after `prefix` is described there. */
  lemma LayoutDescribes(prefix: seq<byte>, c: WireColumn, rows: nat, bitmap: seq<byte>)
    requires WellFormed(c, rows) && BitmapOf(bitmap, c)
    ensures |Layout(c, rows, bitmap)| == Size(c, rows)
    ensures Describes(prefix + Layout(c, rows, bitmap), |prefix|, c, rows)
  {
    hide FromLittleEndian, LittleEndian, LengthPart, NumberIn, LengthsAt, BitsAt, Encodes, Pow256, WellFormed;
    var h := Header(c, rows);
    Regroupings(prefix, h, LengthPart(c), c.data, bitmap);
    LengthPartSize(c, rows);
    HeaderDescribes(prefix, c, rows, LengthPart(c) + c.data + bitmap);
    PieceAt(prefix + h + LengthPart(c), c.data, bitmap);
    if Varlen(c.typeId) {
      LengthsDescribe(prefix + h, c, rows, c.data + bitmap);
    }
    if c.hasValidity {
      BitmapLength(bitmap, c, rows);
      BitsDescribe(prefix + h + LengthPart(c) + c.data, bitmap, c.validity);
    }
  }

  lemma BitmapLength(bitmap: seq<byte>, c: WireColumn, rows: nat)
    requires WellFormed(c, rows) && BitmapOf(bitmap, c)
    ensures |bitmap| == if c.hasValidity then BitmapSize(rows) else 0
    ensures c.hasValidity ==> |c.validity| == rows
  {
  }

  lemma HeaderDescribes(prefix: seq<byte>, c: WireColumn, rows: nat, rest: seq<byte>)
    requires WellFormed(c, rows)
    ensures var h := Header(c, rows);
            var p, at := prefix + h + rest, |prefix|;
            && |h| == 8
            && NumberIn(p, at, 2) == c.index && p[at + 2] == c.typeId && p[at + 3] == ModeByte(c.hasValidity)
            && NumberIn(p, at + 4, 4) == rows
  {
    hide FromLittleEndian, LittleEndian, Pow256;
    var first, middle, last := LittleEndian(c.index, 2), [c.typeId, ModeByte(c.hasValidity)], LittleEndian(rows, 4);
    var p := prefix + (first + middle + last) + rest;
    assert p == prefix + first + (middle + last + rest);
    PieceAt(prefix, first, middle + last + rest);
    assert p == (prefix + first + middle) + last + rest;
    PieceAt(prefix + first + middle, last, rest);
    LittleEndianFits(c.index, 2);
    LittleEndianFits(rows, 4);
  }

  lemma LengthsDescribe(prefix: seq<byte>, c: WireColumn, rows: nat, rest: seq<byte>)
    requires WellFormed(c, rows) && Varlen(c.typeId)
    ensures |prefix| + 4 + 4 * rows <= |prefix + LengthPart(c) + rest|
    ensures LengthsAt(prefix + LengthPart(c) + rest, |prefix|, c, rows)
  {
    hide FromLittleEndian, LittleEndian, Packed, NumberArrays.Numbers, Pow256;
    var first, last := LittleEndian(|c.data|, 4), Packed(c.lengths, 4);
    var p := prefix + (first + last) + rest;
    assert p == prefix + first + (last + rest);
    PieceAt(prefix, first, last + rest);
    assert p == (prefix + first) + last + rest;
    PieceAt(prefix + first, last, rest);
    LittleEndianFits(|c.data|, 4);
    UnpackedNumbers(c.lengths, 4);
  }

  lemma BitsDescribe(prefix: seq<byte>, bitmap: seq<byte>, bits: seq<bool>)
    requires Encodes(bitmap, bits)
    ensures BitsAt(prefix + bitmap, |prefix|, bits)
  {
    hide TestBit;
  }

  // ---------- Reading ----------

  method ReadScalar(p: seq<byte>, cursor: nat, k: nat) returns (ok: bool, n: nat, cursor': nat)
    ensures ok <==> cursor + k <= |p|
    ensures ok ==> n == NumberIn(p, cursor, k) && n < Pow256(k) && cursor' == cursor + k
    ensures !ok ==> cursor' == cursor
  {
    if cursor + k > |p| {
      return false, 0, cursor;
    }
    return true, FromLittleEndian(p[cursor..cursor + k]), cursor + k;
  }

  lemma OneByte(p: seq<byte>, at: nat)
    requires at < |p|
    ensures NumberIn(p, at, 1) == p[at]
  {
    var s := p[at..at + 1];
    assert s[1..] == [];
  }

  lemma NumbersBounded(s: seq<byte>, w: nat, n: nat)
    requires w * n <= |s|
    ensures forall i :: 0 <= i < n ==> NumberArrays.Numbers(s, w, n)[i] < Pow256(w)
  {
    forall i | 0 <= i < n
      ensures NumberArrays.Numbers(s, w, n)[i] < Pow256(w)
    {
      NumberFits(w, i, n);
    }
  }

  /** The first eight bytes of a column. */
  method ReadHeader(p: seq<byte>, cursor: nat) returns (ok: bool, index: nat, typeId: nat, mode: nat, count: nat)
    ensures ok <==> cursor + 8 <= |p|
    ensures ok ==> index == NumberIn(p, cursor, 2) && typeId == p[cursor + 2] && mode == p[cursor + 3] &&
                   count == NumberIn(p, cursor + 4, 4) && index < Pow256(2) && count < Pow256(4)
  {
    hide NumberIn, FromLittleEndian, Pow256;
    index, typeId, mode, count := 0, 0, 0, 0;
    var at;
    ok, index, at := ReadScalar(p, cursor, 2);
    if !ok { return; }
    ok, typeId, at := ReadScalar(p, at, 1);
    if !ok { return; }
    ok, mode, at := ReadScalar(p, at, 1);
    if !ok { return; }
    ok, count, at := ReadScalar(p, at, 4);
    if !ok { return; }
    OneByte(p, cursor + 2);
    OneByte(p, cursor + 3);
  }

  /** The lengths and the bytes of strings, or the values of fixed width, behind the header at `at`. */
  method ReadValues(p: seq<byte>, at: nat, index: nat, typeId: nat, rows: nat) returns (ok: bool, c: WireColumn, cursor': nat)
    requires at + 8 <= |p| && index < Pow256(2) && typeId < 256 && rows < Pow256(4)
    ensures ok ==> c.index == index && c.typeId == typeId && !c.hasValidity && WellFormed(c, rows) &&
                   ValuesAt(p, at, c, rows) && cursor' == at + Values(c, rows) + |c.data| <= |p|
    ensures forall w: WireColumn :: w.typeId == typeId && WellFormed(w, rows) && ValuesAt(p, at, w, rows) ==>
                          ok && c.data == w.data && c.lengths == w.lengths
  {
    hide FromLittleEndian, NumberArrays.Numbers, Pow256;
    var size, lengths: seq<nat> := 0, [];
    cursor' := at + 8;
    c := WireColumn(index, typeId, [], [], false, []);
    if Varlen(typeId) {
      ok, size, cursor' := ReadScalar(p, cursor', 4);
      if !ok || cursor' + 4 * rows + size > |p| {
        return false, c, cursor';
      }
      lengths := NumberArrays.Numbers(p[cursor'..cursor' + 4 * rows], 4, rows);
      NumbersBounded(p[cursor'..cursor' + 4 * rows], 4, rows);
      cursor' := cursor' + 4 * rows;
    } else {
      size := SizeOf(typeId) * rows;
      if cursor' + size > |p| {
        return false, c, cursor';
      }
    }
    c := WireColumn(index, typeId, p[cursor'..cursor' + size], lengths, false, []);
    cursor' := cursor' + size;
    ok := true;
  }

  method ReadBitmap(p: seq<byte>, cursor: nat, rows: nat) returns (ok: bool, bits: seq<bool>, cursor': nat)
    ensures ok <==> cursor + BitmapSize(rows) <= |p|
    ensures ok ==> |bits| == rows && BitsAt(p, cursor, bits) && cursor' == cursor + BitmapSize(rows)
  {
    hide TestBit;
    if cursor + BitmapSize(rows) > |p| {
      return false, [], cursor;
    }
    bits := Unpack(p[cursor..cursor + BitmapSize(rows)], rows);
    return true, bits, cursor + BitmapSize(rows);
  }

  /** A column can be read in one way only. */
  lemma DescribesUnique(p: seq<byte>, at: nat, c: WireColumn, d: WireColumn, rows: nat)
    requires Describes(p, at, c, rows) && Describes(p, at, d, rows)
    ensures c == d
  {
    hide FromLittleEndian, NumberArrays.Numbers, Pow256, TestBit;
    assert c.index == d.index && c.typeId == d.typeId && c.hasValidity == d.hasValidity;
    assert |c.data| == |d.data| && c.data == d.data;
    assert c.validity == d.validity;
  }

  // ---------- The cells of a column ----------

  /** The strings of a column lie within its bytes, and its type is one of this model. */
  predicate Usable(c: WireColumn, rows: nat) {
    && WellFormed(c, rows) && c.typeId <= 6
    && (Varlen(c.typeId) ==> Views.SumTo(c.lengths, rows) <= |c.data|)
  }

  function CellAt(c: WireColumn, rows: nat, i: nat): Cell
    requires Usable(c, rows) && i < rows
  {
    var valid := !c.hasValidity || c.validity[i];
    if Varlen(c.typeId) then Text(valid, Views.TextAt(c.lengths, c.data, i))
    else
      NumberFits(SizeOf(c.typeId), i, rows);
      Number(valid, NumberAt(c.data, SizeOf(c.typeId), i))
  }
}
