/** What a scan means: filter, then drop `offset` rows, then take `limit` rows (0 means all). */
module ScanSpec {
  import opened Bytes
  import opened Table
  import opened Predicates

  type ValueRow = seq<Value>

  // ---------- Offset and limit as the scan loops keep them ----------

  /** The rows emitted so far and the counters that the executors share. */
  datatype Cut = Cut(emitted: seq<ValueRow>, offset: nat, limit: nat, stop: bool)

  /** One matching row reaches the counters. */
  function Offer(c: Cut, row: ValueRow): Cut {
    if c.stop then c
    else if c.offset > 0 then c.(offset := c.offset - 1)
    else if c.limit > 0 then Cut(c.emitted + [row], 0, c.limit - 1, c.limit == 1)
    else c.(emitted := c.emitted + [row])
  }

  function OfferAll(c: Cut, rows: seq<ValueRow>): Cut
    decreases rows
  {
    if rows == [] then c else OfferAll(Offer(c, rows[0]), rows[1..])
  }

  lemma {:induction false} OfferAllConcat(c: Cut, a: seq<ValueRow>, b: seq<ValueRow>)
    ensures OfferAll(c, a + b) == OfferAll(OfferAll(c, a), b)
    decreases a
  {
    if a == [] {
      assert a + b == b;
    } else {
      OfferAllConcat(Offer(c, a[0]), a[1..], b);
      assert (a + b)[1..] == a[1..] + b;
    }
  }

  lemma OfferLast(c: Cut, rows: seq<ValueRow>, row: ValueRow)
    ensures OfferAll(c, rows + [row]) == Offer(OfferAll(c, rows), row)
  {
    OfferAllConcat(c, rows, [row]);
    assert [row][1..] == [];
  }

  lemma {:induction false} StoppedForGood(c: Cut, rows: seq<ValueRow>)
    requires c.stop
    ensures OfferAll(c, rows) == c
  {
    if rows != [] {
      StoppedForGood(c, rows[1..]);
    }
  }

  function Drop(rows: seq<ValueRow>, n: nat): seq<ValueRow> {
    if n <= |rows| then rows[n..] else []
  }

  function Take(rows: seq<ValueRow>, n: nat): seq<ValueRow> {
    if n == 0 || n >= |rows| then rows else rows[..n]
  }

  /** The counters compute drop and take, wherever in the table the rows are. */
  lemma {:induction false} OfferAllIsDropTake(c: Cut, rows: seq<ValueRow>)
    requires !c.stop
    ensures OfferAll(c, rows).emitted == c.emitted + Take(Drop(rows, c.offset), c.limit)
    decreases |rows|
  {
    if rows != [] {
      var d := Offer(c, rows[0]);
      if d.stop {
        StoppedForGood(d, rows[1..]);
        assert Take(Drop(rows, 0), 1) == [rows[0]];
      } else {
        OfferAllIsDropTake(d, rows[1..]);
        if c.offset == 0 {
          assert Drop(rows, 0) == [rows[0]] + rows[1..] && Drop(rows[1..], 0) == rows[1..];
        }
      }
    }
  }

  // ---------- The output columns ----------

  datatype Output = Output(index: nat, ftype: FieldType)

  /** The buffers of one column of the response. */
  datatype OutputColumn = OutputColumn(data: seq<byte>, lengths: seq<nat>, validity: seq<bool>, hasNull: bool)

  const EMPTY := OutputColumn([], [], [], false)

  /** A bool is normalised to 0 or 1; every other value keeps its bits. */
  function OutputBytes(t: FieldType, raw: nat): seq<byte> {
    LittleEndian(if t.Bool? && raw != 0 then 1 else raw, Width(t))
  }

  function AppendValue(out: OutputColumn, t: FieldType, v: Value): OutputColumn {
    match v
    case Missing =>
      OutputColumn(out.data + LittleEndian(0, Width(t)), if IsVarlen(t) then out.lengths + [0] else out.lengths,
                   out.validity + [false], true)
    case Fixed(raw) =>
      OutputColumn(out.data + OutputBytes(t, raw), out.lengths, out.validity + [true], out.hasNull)
    case Content(bytes) =>
      OutputColumn(out.data + bytes, out.lengths + [|bytes|], out.validity + [true], out.hasNull)
  }

  function EmptyOutputs(outs: seq<Output>): (r: seq<OutputColumn>)
    ensures |r| == |outs|
  {
    seq(|outs|, i => EMPTY)
  }

  function AppendRow(columns: seq<OutputColumn>, outs: seq<Output>, row: ValueRow): (r: seq<OutputColumn>)
    requires |columns| == |outs| == |row|
    ensures |r| == |outs|
  {
    seq(|outs|, i requires 0 <= i < |outs| => AppendValue(columns[i], outs[i].ftype, row[i]))
  }

  predicate RowsFit(outs: seq<Output>, rows: seq<ValueRow>) {
    forall j :: 0 <= j < |rows| ==> |rows[j]| == |outs|
  }

  /** The buffers that hold exactly `rows`. */
  function Rendered(outs: seq<Output>, rows: seq<ValueRow>): (r: seq<OutputColumn>)
    requires RowsFit(outs, rows)
    ensures |r| == |outs|
  {
    if rows == [] then EmptyOutputs(outs)
    else AppendRow(Rendered(outs, rows[..|rows| - 1]), outs, rows[|rows| - 1])
  }

  lemma RenderedStep(outs: seq<Output>, rows: seq<ValueRow>, row: ValueRow)
    requires RowsFit(outs, rows) && |row| == |outs|
    ensures RowsFit(outs, rows + [row])
    ensures Rendered(outs, rows + [row]) == AppendRow(Rendered(outs, rows), outs, row)
  {
    assert (rows + [row])[..|rows|] == rows;
  }
}
