/** The engine's Dataset: sealed segments in memory and the columns being filled. */
module DatasetEngine {
  import opened Bytes
  import opened Sequences
  import opened Table

  /** One column of an append request. */
  datatype FieldBatch = FieldBatch(ftype: FieldType, cells: seq<Cell>, hasValidity: bool)

  /** The rows [from, to) of a batch, appended to a column. */
  function Appended(f: FieldVector, b: FieldBatch, from: nat, to: nat): FieldVector
    requires from <= to <= |b.cells|
  {
    FieldVector(f.ftype, f.cells + b.cells[from..to], f.hasNulls || b.hasValidity)
  }

  /** All batches have `n` rows. */
  predicate SameCount(batches: seq<FieldBatch>, n: nat) {
    forall i :: 0 <= i < |batches| ==> |batches[i].cells| == n
  }

  predicate TypesMatch(fields: seq<FieldVector>, batches: seq<FieldBatch>) {
    |fields| == |batches| && forall i :: 0 <= i < |fields| ==> fields[i].ftype == batches[i].ftype
  }

  function BatchRow(batches: seq<FieldBatch>, r: nat, n: nat): (row: Row)
    requires SameCount(batches, n) && r < n
    ensures |row| == |batches|
  {
    seq(|batches|, c requires 0 <= c < |batches| => batches[c].cells[r])
  }

  function BatchCount(batches: seq<FieldBatch>): nat {
    if batches == [] then 0 else |batches[0].cells|
  }

  function BatchRows(batches: seq<FieldBatch>, n: nat): (rows: seq<Row>)
    requires SameCount(batches, n)
    ensures |rows| == n
  {
    seq(n, r requires 0 <= r < n => BatchRow(batches, r, n))
  }

  /** A string or bytes column whose values are all empty arrives with a null byte pointer. */
  predicate HasNoBytes(b: FieldBatch) { IsVarlen(b.ftype) && StoredBytes(b.cells) == 0 }

  /** The index of the first column with a null byte pointer, or the number of columns. */
  function FirstWithoutBytes(batches: seq<FieldBatch>): (k: nat)
    ensures k <= |batches|
    ensures forall i :: 0 <= i < k ==> !HasNoBytes(batches[i])
    ensures k < |batches| ==> HasNoBytes(batches[k])
  {
    if batches == [] || HasNoBytes(batches[0]) then 0 else 1 + FirstWithoutBytes(batches[1..])
  }

  /** The columns after the first `k` of them received the rows [from, to). */
  function PartlyAppended(fields: seq<FieldVector>, batches: seq<FieldBatch>, k: nat, from: nat, to: nat)
    : (fields': seq<FieldVector>)
    requires |fields| == |batches| && k <= |fields| && from <= to
    requires forall i :: 0 <= i < |batches| ==> to <= |batches[i].cells|
    ensures |fields'| == |fields|
  {
    seq(|fields|, i requires 0 <= i < |fields| =>
      if i < k then Appended(fields[i], batches[i], from, to) else fields[i])
  }

  lemma PartlyAppendedRows(fields: seq<FieldVector>, m: nat, batches: seq<FieldBatch>, n: nat, from: nat, to: nat)
    requires |fields| == |batches| && Rectangular(fields, m) && SameCount(batches, n) && from <= to <= n
    ensures var fields' := PartlyAppended(fields, batches, |fields|, from, to);
            Rectangular(fields', m + to - from) &&
            RowsOf(fields', m + to - from) == RowsOf(fields, m) + BatchRows(batches, n)[from..to]
  {
    var fields' := PartlyAppended(fields, batches, |fields|, from, to);
    forall r | 0 <= r < m + to - from
      ensures RowAt(fields', r, m + to - from) == (RowsOf(fields, m) + BatchRows(batches, n)[from..to])[r]
    {
    }
  }

  class Dataset {
    const capacity: nat
    const types: seq<FieldType>
    var active: seq<FieldVector>
    var segments: seq<Segment>

    function ActiveRowCount(): nat
      reads this
    {
      if active == [] then 0 else |active[0].cells|
    }

    /** The structural invariant; it says nothing about the active columns having one length. */
    ghost predicate Valid()
      reads this
    {
      && capacity > 0
      && |active| == |types|
      && (forall i :: 0 <= i < |types| ==> active[i].ftype == types[i])
      && (forall s :: s in segments ==> ValidSegment(s) && MatchesSchema(s, types))
    }

    /** The active columns have one length, below the capacity: the state that appends need. */
    ghost predicate Aligned()
      reads this
    {
      Rectangular(active, ActiveRowCount()) && ActiveRowCount() < capacity
    }

    ghost function ActiveRows(): seq<Row>
      requires Aligned()
      reads this
    {
      RowsOf(active, ActiveRowCount())
    }

    constructor (types: seq<FieldType>, capacity: nat)
      requires capacity > 0
      ensures Valid() && Aligned() && this.types == types && this.capacity == capacity
      ensures segments == [] && active == EmptyColumns(types)
    {
      this.types, this.capacity := types, capacity;
      active, segments := EmptyColumns(types), [];
    }

    /** The request passes every check that AppendBatch makes before its first change. */
    predicate Starts(batches: seq<FieldBatch>)
      reads this
    {
      && BatchCount(batches) > 0
      && Rectangular(active, ActiveRowCount())
      && TypesMatch(active, batches)
      && SameCount(batches, BatchCount(batches))
    }

    /** The requests that AppendBatch reports as appended; an empty one needs no more than the right width. */
    predicate Accepts(batches: seq<FieldBatch>)
      reads this
    {
      if BatchCount(batches) == 0 then |batches| == |types|
      else Starts(batches) && FirstWithoutBytes(batches) == |batches|
    }

    /** How many of `count` rows fit into the active columns. */
    function FirstChunk(count: nat): nat
      reads this
      requires ActiveRowCount() < capacity
    {
      if count < capacity - ActiveRowCount() then count else capacity - ActiveRowCount()
    }

    method AppendBatch(batches: seq<FieldBatch>) returns (ok: bool)
      requires Valid() && (Rectangular(active, ActiveRowCount()) ==> Aligned())
      modifies this
      ensures Valid()
      ensures ok == old(Accepts(batches))
      ensures old(segments) <= segments
      ensures ok && BatchCount(batches) > 0 ==>
                && old(Aligned()) && SameCount(batches, BatchCount(batches)) && Aligned()
                && AllRows(segments[|old(segments)|..]) + ActiveRows() ==
                   old(ActiveRows()) + BatchRows(batches, BatchCount(batches))
                && forall s :: s in segments[|old(segments)|..] ==> s.rowCount == capacity
      ensures !ok || BatchCount(batches) == 0 ==>
                && segments == old(segments)
                && active == if old(Starts(batches))
                             then PartlyAppended(old(active), batches, FirstWithoutBytes(batches), 0,
                                                 old(FirstChunk(BatchCount(batches))))
                             else old(active)
    {
      hide AllRows, FirstWithoutBytes, BatchRows, RowsOf, PartlyAppended, SegmentRows;
      if |batches| != |types| {
        return false;
      }
      var count := BatchCount(batches);
      if count == 0 {
        return true;
      }
      var fits := CheckBatches(batches, count);
      if !fits {
        return false;
      }
      ok := AppendChunks(batches, count);
    }

    /** The loop over chunks: each fills the active columns up to the capacity at most. */
    method AppendChunks(batches: seq<FieldBatch>, count: nat) returns (ok: bool)
      requires Valid() && Aligned() && TypesMatch(active, batches) && SameCount(batches, count)
      requires batches != [] && count > 0
      modifies this
      ensures Valid() && old(segments) <= segments
      ensures ok == (FirstWithoutBytes(batches) == |batches|)
      ensures ok ==> Aligned()
      ensures ok ==> AllRows(segments[|old(segments)|..]) + ActiveRows() ==
                     old(ActiveRows()) + BatchRows(batches, count)
      ensures ok ==> forall s :: s in segments[|old(segments)|..] ==> s.rowCount == capacity
      ensures !ok ==> segments == old(segments)
      ensures !ok ==> active == PartlyAppended(old(active), batches, FirstWithoutBytes(batches), 0,
                                               old(FirstChunk(count)))
    {
      hide AllRows, FirstWithoutBytes, BatchRows, RowsOf, PartlyAppended, SegmentRows;
      ghost var before, rows := segments, ActiveRows();
      ghost var all := BatchRows(batches, count);
      NoSegments();
      assert segments[|before|..] == [] && all[..0] == [];
      var offset := 0;
      while offset < count
        invariant 0 <= offset <= count
        invariant Valid() && Aligned() && TypesMatch(active, batches)
        invariant offset > 0 ==> FirstWithoutBytes(batches) == |batches|
        invariant offset == 0 ==> active == old(active) && segments == before
        invariant before <= segments
        invariant AllRows(segments[|before|..]) + ActiveRows() == rows + all[..offset]
        invariant forall s :: s in segments[|before|..] ==> s.rowCount == capacity
      {
        var take := FirstChunk(count - offset);
        ghost var current, sealed, filled := segments, AllRows(segments[|before|..]), ActiveRows();
        ghost var slice := all[offset..offset + take];
        assert sealed + filled == rows + all[..offset];
        ok := AppendChunkAndSeal(batches, count, offset, offset + take);
        if !ok {
          return false;
        }
        assert segments[|before|..] == current[|before|..] + segments[|current|..];
        AllRowsConcat(current[|before|..], segments[|current|..]);
        Regroup(sealed, AllRows(segments[|current|..]), ActiveRows());
        Regroup(sealed, filled, slice);
        assert rows + all[..offset + take] == (rows + all[..offset]) + slice;
        offset := offset + take;
      }
      assert all[..count] == all;
      return true;
    }

    /** One turn of the loop: a chunk, and a new segment when the columns are full. */
    method AppendChunkAndSeal(batches: seq<FieldBatch>, count: nat, from: nat, to: nat) returns (ok: bool)
      requires Valid() && Aligned() && TypesMatch(active, batches) && SameCount(batches, count) && batches != []
      requires from < to <= count && ActiveRowCount() + (to - from) <= capacity
      modifies this
      ensures Valid() && old(segments) <= segments
      ensures ok == (FirstWithoutBytes(batches) == |batches|)
      ensures ok ==> Aligned() && TypesMatch(active, batches)
      ensures ok ==> AllRows(segments[|old(segments)|..]) + ActiveRows() ==
                     old(ActiveRows()) + BatchRows(batches, count)[from..to]
      ensures ok ==> forall s :: s in segments[|old(segments)|..] ==> s.rowCount == capacity
      ensures !ok ==> segments == old(segments)
      ensures !ok ==> active == PartlyAppended(old(active), batches, FirstWithoutBytes(batches), from, to)
    {
      hide AllRows, FirstWithoutBytes, BatchRows, RowsOf, PartlyAppended, SegmentRows;
      ok := AppendChunk(batches, count, from, to);
      NoSegments();
      assert segments[|segments|..] == [];
      if ok && ActiveRowCount() >= capacity {
        Seal();
      }
    }

    method CheckBatches(batches: seq<FieldBatch>, count: nat) returns (fits: bool)
      requires |batches| == |active| && BatchCount(batches) == count
      ensures fits <==> Rectangular(active, ActiveRowCount()) && TypesMatch(active, batches) && SameCount(batches, count)
    {
      for i := 0 to |active|
        invariant forall j :: 0 <= j < i ==> |active[j].cells| == ActiveRowCount()
        invariant forall j :: 0 <= j < i ==> active[j].ftype == batches[j].ftype
        invariant forall j :: 0 <= j < i ==> |batches[j].cells| == count
      {
        if |active[i].cells| != ActiveRowCount() || active[i].ftype != batches[i].ftype
           || |batches[i].cells| != count {
          return false;
        }
      }
      return true;
    }

    /** One turn of the loop over chunks: appends the rows [from, to) to one column after the other. */
    method AppendChunk(batches: seq<FieldBatch>, count: nat, from: nat, to: nat) returns (ok: bool)
      requires Valid() && Aligned() && TypesMatch(active, batches) && SameCount(batches, count)
      requires from < to <= count && ActiveRowCount() + (to - from) <= capacity
      modifies this`active
      ensures Valid()
      ensures ok <==> FirstWithoutBytes(batches) == |batches|
      ensures active == PartlyAppended(old(active), batches, FirstWithoutBytes(batches), from, to)
      ensures ok ==> TypesMatch(active, batches)
      ensures ok ==> Rectangular(active, old(ActiveRowCount()) + to - from)
      ensures ok ==> RowsOf(active, old(ActiveRowCount()) + to - from) ==
                     old(ActiveRows()) + BatchRows(batches, count)[from..to]
      ensures ok && |active| > 0 ==> ActiveRowCount() == old(ActiveRowCount()) + to - from
    {
      ghost var fields, m := active, ActiveRowCount();
      for i := 0 to |active|
        invariant |active| == |fields| && Valid()
        invariant active == PartlyAppended(fields, batches, i, from, to)
        invariant i <= FirstWithoutBytes(batches)
      {
        if HasNoBytes(batches[i]) {
          return false;
        }
        active := active[i := Appended(active[i], batches[i], from, to)];
      }
      PartlyAppendedRows(fields, m, batches, count, from, to);
      return true;
    }

    /** Moves the full active columns into a new segment. */
    method Seal()
      requires Valid() && Rectangular(active, ActiveRowCount()) && ActiveRowCount() == capacity
      modifies this
      ensures Valid() && Aligned() && ActiveRows() == []
      ensures |segments| == |old(segments)| + 1 && old(segments) <= segments
      ensures segments[|old(segments)|..] == [Segment(old(active), capacity)]
      ensures AllRows(segments[|old(segments)|..]) == RowsOf(old(active), capacity)
      ensures active == EmptyColumns(types)
    {
      segments := segments + [Segment(active, ActiveRowCount())];
      AllRowsSingle(Segment(active, ActiveRowCount()));
      active := EmptyColumns(types);
    }
  }

  /**
   A batch refused for a column without bytes leaves the table as it was only
   when that is the first column. Otherwise the columns have different lengths
   from then on, and every later non-empty batch is refused as well, since
   `Starts` asks for equal lengths.
   */
  lemma RefusedBatchJamsTable(fields: seq<FieldVector>, m: nat, batches: seq<FieldBatch>, n: nat, take: nat)
    requires |fields| == |batches| && Rectangular(fields, m) && SameCount(batches, n) && 0 < take <= n
    requires FirstWithoutBytes(batches) < |batches|
    ensures var fields' := PartlyAppended(fields, batches, FirstWithoutBytes(batches), 0, take);
            && (fields' == fields <==> FirstWithoutBytes(batches) == 0)
            && (Rectangular(fields', |fields'[0].cells|) <==> FirstWithoutBytes(batches) == 0)
  {
    var k := FirstWithoutBytes(batches);
    var fields' := PartlyAppended(fields, batches, k, 0, take);
    if k > 0 {
      assert |fields'[0].cells| == m + take && |fields'[k].cells| == m;
    }
  }

  /** One number column followed by one string column whose only value is empty. */
  lemma RefusedBatchExample()
    ensures var fields := EmptyColumns([Int32, String]);
            var batches := [FieldBatch(Int32, [Number(true, 7)], false), FieldBatch(String, [Text(true, [])], false)];
            var fields' := PartlyAppended(fields, batches, FirstWithoutBytes(batches), 0, 1);
            && HasNoBytes(batches[1])
            && !Rectangular(fields', |fields'[0].cells|)
  {
    var fields := EmptyColumns([Int32, String]);
    var batches := [FieldBatch(Int32, [Number(true, 7)], false), FieldBatch(String, [Text(true, [])], false)];
    assert StoredBytes([Text(true, [])]) == 0;
    assert FirstWithoutBytes(batches) == 1 by {
      assert batches[1..][0] == batches[1];
    }
    RefusedBatchJamsTable(fields, 0, batches, 1, 1);
  }

  lemma NoSegments()
    ensures AllRows([]) == []
  {
  }

  function EmptyColumns(types: seq<FieldType>): (fields: seq<FieldVector>)
    ensures |fields| == |types| && Rectangular(fields, 0)
    ensures forall i :: 0 <= i < |types| ==> fields[i].ftype == types[i]
  {
    seq(|types|, i requires 0 <= i < |types| => FieldVector(types[i], [], false))
  }
}
