/** Columns, rows and segments: the values that the engine and the server store. */
module Table {
  import opened Bytes

  datatype FieldType = Int32 | Int64 | Float64 | Bool | DictInt32 | String | Blob

  predicate IsVarlen(t: FieldType) { t.String? || t.Blob? }

  /**
   One stored value. A null (`valid` false) still occupies a slot, and a null
   string may carry bytes: the sender decides what it stores.
   */
  datatype Cell = Number(valid: bool, raw: nat) | Text(valid: bool, bytes: seq<byte>)

  /** `hasNulls` is set once a validity bitmap was ever supplied. */
  datatype FieldVector = FieldVector(ftype: FieldType, cells: seq<Cell>, hasNulls: bool)

  type Row = seq<Cell>

  datatype Segment = Segment(fields: seq<FieldVector>, rowCount: nat)

  /** All columns have `n` cells. */
  predicate Rectangular(fields: seq<FieldVector>, n: nat) {
    forall i :: 0 <= i < |fields| ==> |fields[i].cells| == n
  }

  function RowAt(fields: seq<FieldVector>, r: nat, n: nat): (row: Row)
    requires Rectangular(fields, n) && r < n
    ensures |row| == |fields|
  {
    seq(|fields|, c requires 0 <= c < |fields| => fields[c].cells[r])
  }

  /** The rows of `n`-cell columns, first to last. */
  function RowsOf(fields: seq<FieldVector>, n: nat): (rows: seq<Row>)
    requires Rectangular(fields, n)
    ensures |rows| == n
  {
    seq(n, r requires 0 <= r < n => RowAt(fields, r, n))
  }

  predicate ValidSegment(s: Segment) { Rectangular(s.fields, s.rowCount) }

  /** The columns have the types of the table. */
  predicate MatchesSchema(s: Segment, types: seq<FieldType>) {
    |s.fields| == |types| && forall i :: 0 <= i < |types| ==> s.fields[i].ftype == types[i]
  }

  function SegmentRows(s: Segment): (rows: seq<Row>)
    requires ValidSegment(s)
    ensures |rows| == s.rowCount
  {
    RowsOf(s.fields, s.rowCount)
  }

  /** The rows of a list of segments, in order. */
  function AllRows(segments: seq<Segment>): (rows: seq<Row>)
    requires forall s :: s in segments ==> ValidSegment(s)
  {
    if segments == [] then [] else SegmentRows(segments[0]) + AllRows(segments[1..])
  }

  lemma {:induction false} AllRowsConcat(a: seq<Segment>, b: seq<Segment>)
    requires forall s :: s in a ==> ValidSegment(s)
    requires forall s :: s in b ==> ValidSegment(s)
    ensures forall s :: s in a + b ==> ValidSegment(s)
    ensures AllRows(a + b) == AllRows(a) + AllRows(b)
  {
    if a == [] {
      assert a + b == b;
    } else {
      AllRowsConcat(a[1..], b);
      assert (a + b)[1..] == a[1..] + b;
    }
  }

  lemma AllRowsSingle(s: Segment)
    requires ValidSegment(s)
    ensures AllRows([s]) == SegmentRows(s)
  {
    assert [s][1..] == [];
  }

  /** The bytes that the values of `cells` occupy. */
  function StoredBytes(cells: seq<Cell>): nat {
    if cells == [] then 0
    else (if cells[0].Text? then |cells[0].bytes| else 0) + StoredBytes(cells[1..])
  }

  function FieldBytes(f: FieldVector): nat {
    (match f.ftype
     case Int32 => 4 * |f.cells|
     case Int64 => 8 * |f.cells|
     case Float64 => 8 * |f.cells|
     case Bool => |f.cells|
     case DictInt32 => 4 * |f.cells|
     case String => 4 * |f.cells| + StoredBytes(f.cells)
     case Blob => 4 * |f.cells| + StoredBytes(f.cells)) +
    (if f.hasNulls then 8 * ((|f.cells| + 63) / 64) else 0)
  }

  function FieldsBytes(fields: seq<FieldVector>): nat {
    if fields == [] then 0 else FieldBytes(fields[0]) + FieldsBytes(fields[1..])
  }

  /** The server's SegmentBytes. */
  function SegmentBytes(s: Segment): nat { FieldsBytes(s.fields) }

  function TotalBytes(segments: seq<Segment>): nat {
    if segments == [] then 0 else SegmentBytes(segments[0]) + TotalBytes(segments[1..])
  }

  lemma {:induction false} TotalBytesConcat(a: seq<Segment>, b: seq<Segment>)
    ensures TotalBytes(a + b) == TotalBytes(a) + TotalBytes(b)
  {
    if a == [] {
      assert a + b == b;
    } else {
      TotalBytesConcat(a[1..], b);
      assert (a + b)[1..] == a[1..] + b;
    }
  }
}
