/** The three scan executors of the server and the loop over segments around them. */
module Scanner {
  import opened Bytes
  import opened Table
  import opened Predicates
  import opened Lz4
  import opened Views
  import opened NumberArrays
  import opened ScanSpec
  import opened ScanTable
  import opened Lz4Batches
  import opened PredicateMask

  class Scan {
    const preds: seq<Predicate>
    const outs: seq<Output>
    const cast: real -> int  // what the machine makes of a conversion to int64_t
    var outputs: seq<OutputColumn>
    var remainingOffset: nat
    var remainingLimit: nat
    var stop: bool
    ghost var Emitted: seq<ValueRow>

    ghost predicate Valid()
      reads this
    {
      && RowsFit(outs, Emitted)
      && outputs == Rendered(outs, Emitted)
      && IsInt64Cast(cast)
    }

    ghost function State(): Cut
      reads this
    {
      Cut(Emitted, remainingOffset, remainingLimit, stop)
    }

    constructor (preds: seq<Predicate>, outs: seq<Output>, offset: nat, limit: nat, cast: real -> int)
      requires IsInt64Cast(cast)
      ensures Valid() && State() == Cut([], offset, limit, false)
      ensures this.preds == preds && this.outs == outs && this.cast == cast
    {
      this.preds, this.outs, this.cast := preds, outs, cast;
      outputs := EmptyOutputs(outs);
      remainingOffset, remainingLimit, stop, Emitted := offset, limit, false, [];
    }

    /** A matching row that is past the offset: its values go to the output buffers. */
    method Emit(row: ValueRow)
      requires Valid() && |row| == |outs| && !stop && remainingOffset == 0
      modifies this
      ensures Valid() && State() == Offer(old(State()), row)
    {
      ghost var before := outputs;
      RenderedStep(outs, Emitted, row);
      for i := 0 to |outs|
        invariant |outputs| == |outs| && State() == old(State())
        invariant forall j :: 0 <= j < i ==> outputs[j] == AppendValue(before[j], outs[j].ftype, row[j])
        invariant forall j :: i <= j < |outs| ==> outputs[j] == before[j]
      {
        outputs := outputs[i := AppendValue(outputs[i], outs[i].ftype, row[i])];
      }
      assert outputs == AppendRow(before, outs, row);
      Emitted := Emitted + [row];
      if remainingLimit > 0 {
        remainingLimit := remainingLimit - 1;
        if remainingLimit == 0 {
          stop := true;
        }
      }
    }

    // ---------- Scanning by field ----------

    method ScanFields(s: ScanSegment) returns (ok: bool)
      requires Valid() && !stop
      requires Readable(s) && !s.compressed && OutputsFit(outs, s.columns)
      modifies this
      ensures Valid() && (ok <==> InRange(preds, |s.columns|))
      ensures ok ==> State() == OfferAll(old(State()), Matching(preds, outs, s))
    {
      hide Readable, Offer, OfferAll, Matches, MatchingUpTo, RowValues, Rendered, InRange;
      ghost var initial := State();
      var mask;
      ok, mask := BuildPredicateMask(preds, s);
      if !ok {
        return;
      }
      NothingOffered(initial, s);
      for r := 0 to s.rowCount
        invariant Valid() && !stop
        invariant State() == OfferAll(initial, MatchingUpTo(preds, outs, s, r))
      {
        StepMatching(initial, s, r);
        if mask[r] {
          FieldStep(s, r);
          if stop {
            RestIsIgnored(initial, s, r + 1);
            return;
          }
        }
      }
    }

    /** One matching row of the loop of scan_fields. */
    method FieldStep(s: ScanSegment, r: nat)
      requires Valid() && !stop
      requires Readable(s) && !s.compressed && OutputsFit(outs, s.columns) && r < s.rowCount
      modifies this
      ensures Valid() && State() == Offer(old(State()), RowValues(outs, s, r))
    {
      hide Readable, RowValues, Rendered;
      if remainingOffset > 0 {
        remainingOffset := remainingOffset - 1;
      } else {
        var row := FieldRow(s, r);
        Emit(row);
      }
    }

    method FieldRow(s: ScanSegment, r: nat) returns (row: ValueRow)
      requires Readable(s) && !s.compressed && OutputsFit(outs, s.columns) && r < s.rowCount
      ensures row == RowValues(outs, s, r)
    {
      row := [];
      for i := 0 to |outs|
        invariant row == RowValues(outs, s, r)[..i]
      {
        var v := FieldValue(s.columns[outs[i].index], s.rowCount, r);
        row := row + [v];
      }
    }

    lemma StepMatching(initial: Cut, s: ScanSegment, r: nat)
      requires Readable(s) && OutputsFit(outs, s.columns) && r < s.rowCount
      ensures OfferAll(initial, MatchingUpTo(preds, outs, s, r + 1)) ==
              if Matches(preds, s, r) then
                Offer(OfferAll(initial, MatchingUpTo(preds, outs, s, r)), RowValues(outs, s, r))
              else OfferAll(initial, MatchingUpTo(preds, outs, s, r))
    {
      hide WellFormed, ValueAt, Offer, OfferAll, Matches, RowValues;
      if Matches(preds, s, r) {
        OfferLast(initial, MatchingUpTo(preds, outs, s, r), RowValues(outs, s, r));
      } else {
        assert MatchingUpTo(preds, outs, s, r) + [] == MatchingUpTo(preds, outs, s, r);
      }
    }

    /** Once the limit is reached the remaining rows of the segment change nothing. */
    lemma {:induction false} RestIsIgnored(initial: Cut, s: ScanSegment, r: nat)
      requires Readable(s) && OutputsFit(outs, s.columns) && r <= s.rowCount
      requires OfferAll(initial, MatchingUpTo(preds, outs, s, r)).stop
      ensures OfferAll(initial, Matching(preds, outs, s)) == OfferAll(initial, MatchingUpTo(preds, outs, s, r))
      decreases s.rowCount - r
    {
      if r < s.rowCount {
        StepMatching(initial, s, r);
        RestIsIgnored(initial, s, r + 1);
      }
    }

    // ---------- Scanning by compressed column ----------

    /** The comparison of compressed columns is with the converted constant. */
    predicate ConstantsExact(s: ScanSegment)
    {
      forall k :: 0 <= k < |preds| && preds[k].field < |s.columns| ==>
        s.columns[preds[k].field].ftype.Float64? || SafeConstant(preds[k].op, preds[k].value)
    }

    /** The bool columns that predicates name hold nothing but 0 and 1. */
    ghost predicate BoolsExact(s: ScanSegment)
      requires Readable(s)
    {
      forall k :: 0 <= k < |preds| && preds[k].field < |s.columns| ==> BoolColumn(s.columns[preds[k].field], s.rowCount)
    }

    /** No column that the scan reads is LZ4-compressed. */
    predicate AvoidsLz4(s: ScanSegment)
      requires OutputsFit(outs, s.columns)
    {
      && (forall i :: 0 <= i < |outs| ==> !IsLz4(s.columns[outs[i].index]))
      && (forall k :: 0 <= k < |preds| && preds[k].field < |s.columns| ==> !IsLz4(s.columns[preds[k].field]))
    }

    /** The engine's BuildMaskCompressed for one column that is read by row. */
    method BuildMaskCompressed(c: ColumnView, n: nat, op: CompareOp, value: real) returns (mask: seq<bool>)
      requires WellFormed(c, n) && !IsLz4(c)
      ensures |mask| == n
      ensures forall r :: 0 <= r < n ==> (mask[r] <==> SatisfiesByMask(ValueAt(c, n, r), c.ftype, op, value, cast(value)))
    {
      hide SatisfiesByMask, ValueAt, WellFormed;
      var constant := cast(value);
      mask := seq(n, i => false);
      for r := 0 to n
        invariant |mask| == n
        invariant forall j :: 0 <= j < r ==> (mask[j] <==> SatisfiesByMask(ValueAt(c, n, j), c.ftype, op, value, constant))
      {
        var v := FieldValue(c, n, r);
        mask := mask[r := SatisfiesByMask(v, c.ftype, op, value, constant)];
      }
    }

    /** One mask for every predicate, and their intersection. */
    method CompressedMask(s: ScanSegment) returns (mask: seq<bool>)
      requires Readable(s) && s.compressed && OutputsFit(outs, s.columns) && AvoidsLz4(s) && ConstantsExact(s)
      requires InRange(preds, |s.columns|) && BoolsExact(s) && IsInt64Cast(cast)
      ensures |mask| == s.rowCount
      ensures forall r :: 0 <= r < s.rowCount ==> (mask[r] <==> Matches(preds, s, r))
    {
      hide WellFormed, ValueAt, Satisfies, SatisfiesByMask, SatisfiesConverted, FractionIrrelevant, FitsInt64, IsInt64Cast, Truncate;
      mask := seq(s.rowCount, i => true);
      for k := 0 to |preds|
        invariant |mask| == s.rowCount
        invariant forall r :: 0 <= r < s.rowCount ==> (mask[r] <==> Matches(preds[..k], s, r))
      {
        var c := s.columns[preds[k].field];
        var current := BuildMaskCompressed(c, s.rowCount, preds[k].op, preds[k].value);
        CastOf(cast, preds[k].value);
        forall r | 0 <= r < s.rowCount
          ensures Matches(preds[..k + 1], s, r) <==> Matches(preds[..k], s, r) && current[r]
        {
          assert preds[..k + 1] == preds[..k] + [preds[k]];
          ConversionIrrelevant(ValueAt(c, s.rowCount, r), c.ftype, preds[k].op, preds[k].value, cast(preds[k].value));
        }
        mask := seq(s.rowCount, r requires 0 <= r < s.rowCount => mask[r] && current[r]);
      }
      assert preds[..|preds|] == preds;
    }

    /** The running offset of every string output is where the loop's arithmetic puts it. */
    ghost predicate OffsetsAt(s: ScanSegment, offsets: seq<nat>, flags: seq<bool>, r: nat)
      requires Readable(s) && s.compressed && OutputsFit(outs, s.columns) && AvoidsLz4(s) && r <= s.rowCount
    {
      && |offsets| == |outs| && |flags| == r
      && forall i :: 0 <= i < |outs| && IsVarlen(outs[i].ftype) ==>
           var c := s.columns[outs[i].index];
           offsets[i] == RunningOffset(c.valid, c.store.lengths, flags, r)
    }

    /** A row that is not emitted still moves the offset of every string output. */
    method AdvanceOffsets(s: ScanSegment, offsets: seq<nat>, ghost flags: seq<bool>, r: nat) returns (offsets': seq<nat>)
      requires Readable(s) && s.compressed && OutputsFit(outs, s.columns) && AvoidsLz4(s) && r < s.rowCount
      requires OffsetsAt(s, offsets, flags, r)
      ensures OffsetsAt(s, offsets', flags + [false], r + 1)
    {
      offsets' := offsets;
      for i := 0 to |outs|
        invariant |offsets'| == |outs|
        invariant forall j :: i <= j < |outs| ==> offsets'[j] == offsets[j]
        invariant forall j :: 0 <= j < i && IsVarlen(outs[j].ftype) ==>
                    var c := s.columns[outs[j].index];
                    offsets'[j] == RunningOffset(c.valid, c.store.lengths, flags + [false], r + 1)
      {
        if IsVarlen(outs[i].ftype) {
          var c := s.columns[outs[i].index];
          RunningOffsetPrefix(c.valid, c.store.lengths, flags, [false], r);
          offsets' := offsets'[i := offsets'[i] + c.store.lengths[r]];
        }
      }
    }

    /** append_value_compressed: the value at a row, given the running offset of its column. */
    method ReadCompressed(valid: bool, store: Store, r: nat, offset: nat) returns (v: Value, offset': nat)
      requires store.RawNumbers? ==> r < |store.raws|
      requires store.RawTexts? ==> r < |store.lengths| && offset + store.lengths[r] <= |store.bytes|
      requires store.RawNumbers? || store.RawTexts?
      ensures v == if !valid then Missing
                   else if store.RawNumbers? then Fixed(store.raws[r])
                   else Content(store.bytes[offset..offset + store.lengths[r]])
      ensures offset' == if valid && store.RawTexts? then offset + store.lengths[r] else offset
    {
      if !valid {
        return Missing, offset;
      }
      match store {
        case RawNumbers(raws) =>
          return Fixed(raws[r]), offset;
        case RawTexts(lengths, bytes) =>
          return Content(bytes[offset..offset + lengths[r]]), offset + lengths[r];
      }
    }

    method CompressedRow(s: ScanSegment, offsets: seq<nat>, ghost flags: seq<bool>, r: nat)
        returns (row: ValueRow, offsets': seq<nat>)
      requires Readable(s) && s.compressed && OutputsFit(outs, s.columns) && AvoidsLz4(s) && r < s.rowCount
      requires OffsetsAt(s, offsets, flags, r)
      ensures row == RowValues(outs, s, r)
      ensures OffsetsAt(s, offsets', flags + [true], r + 1)
    {
      row, offsets' := [], offsets;
      for i := 0 to |outs|
        invariant row == RowValues(outs, s, r)[..i]
        invariant |offsets'| == |outs|
        invariant forall j :: i <= j < |outs| ==> offsets'[j] == offsets[j]
        invariant forall j :: 0 <= j < i && IsVarlen(outs[j].ftype) ==>
                    var c := s.columns[outs[j].index];
                    offsets'[j] == RunningOffset(c.valid, c.store.lengths, flags + [true], r + 1)
      {
        var c := s.columns[outs[i].index];
        if IsVarlen(c.ftype) {
          OffsetInBounds(c, s.rowCount, flags, r);
          RunningOffsetPrefix(c.valid, c.store.lengths, flags, [true], r);
        }
        var v, offset := ReadCompressed(c.valid[r], c.store, r, offsets'[i]);
        row := row + [v];
        offsets' := offsets'[i := offset];
      }
    }

    lemma OffsetInBounds(c: ColumnView, n: nat, flags: seq<bool>, r: nat)
      requires WellFormed(c, n) && NullsEmpty(c, n) && !IsLz4(c) && IsVarlen(c.ftype) && r < n && |flags| == r
      ensures RunningOffset(c.valid, c.store.lengths, flags, r) == SumTo(c.store.lengths, r)
      ensures SumTo(c.store.lengths, r) + c.store.lengths[r] <= |c.store.bytes|
    {
      RunningOffsetIsSum(c.valid, c.store.lengths, flags, r);
      SumToMonotone(c.store.lengths, r + 1, n);
    }

    method ScanCompressed(s: ScanSegment)
      requires Valid() && !stop
      requires Readable(s) && s.compressed && OutputsFit(outs, s.columns) && AvoidsLz4(s) && ConstantsExact(s)
      requires InRange(preds, |s.columns|) && BoolsExact(s)
      modifies this
      ensures Valid()
      ensures State() == OfferAll(old(State()), Matching(preds, outs, s))
    {
      hide Readable, Offer, OfferAll, Matches, MatchingUpTo, RowValues, Rendered, OffsetsAt, IsInt64Cast;
      ghost var initial := State();
      var mask := CompressedMask(s);
      var offsets := seq(|outs|, i => 0);
      ghost var flags := [];
      OffsetsStart(s, offsets);
      NothingOffered(initial, s);
      var base := 0;
      while base < s.rowCount
        invariant 0 <= base <= s.rowCount
        invariant Valid() && !stop
        invariant State() == OfferAll(initial, MatchingUpTo(preds, outs, s, base))
        invariant OffsetsAt(s, offsets, flags, base)
        decreases s.rowCount - base
      {
        var end := if s.rowCount < base + BATCH_ROWS then s.rowCount else base + BATCH_ROWS;
        for row := base to end
          invariant Valid() && !stop
          invariant State() == OfferAll(initial, MatchingUpTo(preds, outs, s, row))
          invariant OffsetsAt(s, offsets, flags, row)
        {
          StepMatching(initial, s, row);
          offsets, flags := CompressedStep(s, mask[row], offsets, flags, row);
          if stop {
            RestIsIgnored(initial, s, row + 1);
            return;
          }
        }
        base := end;
      }
    }

    /** One row of the loop of scan_compressed. */
    method CompressedStep(s: ScanSegment, keep: bool, offsets: seq<nat>, ghost flags: seq<bool>, row: nat)
        returns (offsets': seq<nat>, ghost flags': seq<bool>)
      requires Valid() && !stop
      requires Readable(s) && s.compressed && OutputsFit(outs, s.columns) && AvoidsLz4(s) && row < s.rowCount
      requires OffsetsAt(s, offsets, flags, row)
      modifies this
      ensures Valid() && OffsetsAt(s, offsets', flags', row + 1)
      ensures State() == if keep then Offer(old(State()), RowValues(outs, s, row)) else old(State())
    {
      hide Readable, RowValues, Rendered, OffsetsAt;
      if !keep || remainingOffset > 0 {
        if keep {
          remainingOffset := remainingOffset - 1;
        }
        offsets' := AdvanceOffsets(s, offsets, flags, row);
        flags' := flags + [false];
      } else {
        var values;
        values, offsets' := CompressedRow(s, offsets, flags, row);
        flags' := flags + [true];
        Emit(values);
      }
    }

    lemma NothingOffered(initial: Cut, s: ScanSegment)
      requires Readable(s) && OutputsFit(outs, s.columns)
      ensures OfferAll(initial, MatchingUpTo(preds, outs, s, 0)) == initial
    {
    }

    lemma OffsetsStart(s: ScanSegment, offsets: seq<nat>)
      requires Readable(s) && s.compressed && OutputsFit(outs, s.columns) && AvoidsLz4(s)
      requires offsets == seq(|outs|, i => 0)
      ensures OffsetsAt(s, offsets, [], 0)
    {
    }

    // ---------- Scanning LZ4 columns in batches ----------

    predicate Needed(i: nat) {
      (exists k :: 0 <= k < |outs| && outs[k].index == i) || (exists k :: 0 <= k < |preds| && preds[k].field == i)
    }

    /**
     The batch loop starts the offset of a plain string column at 0 again, so
     such a column needs a segment of one batch; segments hold at most
     BATCH_ROWS rows. Dictionary columns are not part of this model.
     */
    predicate BatchesSuffice(s: ScanSegment)
      requires OutputsFit(outs, s.columns)
    {
      && (s.rowCount <= BATCH_ROWS ||
          forall i :: 0 <= i < |outs| && IsVarlen(outs[i].ftype) ==> IsLz4(s.columns[outs[i].index]))
      && forall i :: 0 <= i < |s.columns| && IsLz4(s.columns[i]) ==> !s.columns[i].ftype.DictInt32?
    }

    ghost predicate BatchHolds(s: ScanSegment, i: nat, store: Store, base: nat, end: nat)
      requires Readable(s) && s.compressed && i < |s.columns| && base <= end <= s.rowCount
    {
      Holds(s.columns[i], s.rowCount, store, base, end)
    }

    ghost predicate BatchReady(s: ScanSegment, stores: seq<Store>, base: nat, end: nat)
      requires Readable(s) && s.compressed && base <= end <= s.rowCount
    {
      |stores| == |s.columns| &&
      forall i :: 0 <= i < |s.columns| && Needed(i) ==> BatchHolds(s, i, stores[i], base, end)
    }

    /** Where the batch finds row `row` of a column. */
    function Place(c: ColumnView, base: nat, row: nat): nat
      requires base <= row
    {
      if IsLz4(c) then row - base else row
    }

    /** The value that the batch holds at a row is the column's. */
    lemma BatchValue(s: ScanSegment, i: nat, store: Store, base: nat, end: nat, row: nat)
      requires Readable(s) && s.compressed && i < |s.columns| && base <= row < end <= s.rowCount
      requires BatchHolds(s, i, store, base, end)
      ensures var c := s.columns[i];
              var place := Place(c, base, row);
              && (IsVarlen(c.ftype) ==> store.RawTexts? && place < |store.lengths|)
              && (!IsVarlen(c.ftype) ==> store.RawNumbers? && place < |store.raws|)
              && (!IsVarlen(c.ftype) ==>
                    ValueAt(c, s.rowCount, row) == if c.valid[row] then Fixed(store.raws[place]) else Missing)
    {
    }

    method RowMatches(s: ScanSegment, stores: seq<Store>, base: nat, end: nat, row: nat) returns (keep: bool)
      requires Readable(s) && s.compressed && ConstantsExact(s) && base <= row < end <= s.rowCount
      requires InRange(preds, |s.columns|) && IsInt64Cast(cast)
      requires BatchReady(s, stores, base, end)
      ensures keep <==> Matches(preds, s, row)
    {
      hide Readable, Satisfies, FractionIrrelevant, FitsInt64, BatchHolds, IsInt64Cast;
      for k := 0 to |preds|
        invariant Matches(preds[..k], s, row)
      {
        var p := preds[k];
        assert Needed(p.field);
        assert preds[..k + 1] == preds[..k] + [p];
        var holds := PredicateHolds(s, p, stores[p.field], base, end, row);
        if !holds {
          return false;
        }
      }
      assert preds[..|preds|] == preds;
      return true;
    }

    method PredicateHolds(s: ScanSegment, p: Predicate, store: Store, base: nat, end: nat, row: nat) returns (holds: bool)
      requires Readable(s) && s.compressed && p.field < |s.columns| && base <= row < end <= s.rowCount
      requires s.columns[p.field].ftype.Float64? || SafeConstant(p.op, p.value)
      requires BatchHolds(s, p.field, store, base, end) && IsInt64Cast(cast)
      ensures holds <==> Satisfies(ValueAt(s.columns[p.field], s.rowCount, row), s.columns[p.field].ftype, p.op, p.value)
    {
      hide FractionIrrelevant, FitsInt64, IsInt64Cast, Truncate, BatchHolds, Double;
      var c := s.columns[p.field];
      var constant := cast(p.value);
      CastOf(cast, p.value);
      BatchValue(s, p.field, store, base, end, row);
      ConversionIrrelevant(ValueAt(c, s.rowCount, row), c.ftype, p.op, p.value, constant);
      if !c.valid[row] || !IsNumeric(c.ftype) {
        return false;
      }
      var raw := store.raws[Place(c, base, row)];
      if c.ftype.Float64? {
        return CompareReal(Double(raw), p.value, p.op);
      }
      return CompareInt(Signed(c.ftype, raw), constant, p.op);
    }

    /** The offset of every string output, counted from the start of what its batch holds. */
    ghost predicate BatchOffsetsAt(s: ScanSegment, offsets: seq<nat>, base: nat, row: nat)
      requires Readable(s) && s.compressed && OutputsFit(outs, s.columns) && base <= row <= s.rowCount
    {
      |offsets| == |outs| &&
      forall i :: 0 <= i < |outs| && IsVarlen(outs[i].ftype) ==>
        BatchOffset(s.columns[outs[i].index], s.rowCount, offsets[i], base, row)
    }

    ghost predicate BatchOffset(c: ColumnView, n: nat, offset: nat, base: nat, row: nat)
      requires WellFormed(c, n) && IsVarlen(c.ftype) && base <= row <= n
    {
      var lengths := Unpacked(c, n).lengths;
      if IsLz4(c) then offset + SumTo(lengths, base) == SumTo(lengths, row)
      else base == 0 && offset == SumTo(lengths, row)
    }

    /** A string of a batch sits at its offset, as long as its length, and holds the column's value. */
    ghost predicate TextHeld(c: ColumnView, n: nat, store: Store, offset: nat, base: nat, row: nat)
      requires WellFormed(c, n) && IsVarlen(c.ftype) && base <= row < n
    {
      && store.RawTexts? && row - base < |store.lengths|
      && var len := store.lengths[row - base];
         && offset + len <= |store.bytes|
         && BatchOffset(c, n, offset + len, base, row + 1)
         && (c.valid[row] ==> ValueAt(c, n, row) == Content(store.bytes[offset..offset + len]))
         && (!c.valid[row] ==> len == 0)
    }

    lemma BatchText(s: ScanSegment, i: nat, store: Store, offset: nat, base: nat, end: nat, row: nat)
      requires Readable(s) && s.compressed && i < |s.columns| && base <= row < end <= s.rowCount
      requires BatchHolds(s, i, store, base, end) && IsVarlen(s.columns[i].ftype)
      requires BatchOffset(s.columns[i], s.rowCount, offset, base, row)
      ensures Place(s.columns[i], base, row) == row - base
      ensures TextHeld(s.columns[i], s.rowCount, store, offset, base, row)
    {
      hide WellFormed, NullsEmpty, TextHeld, BatchStore;
      if IsLz4(s.columns[i]) {
        Lz4Text(s.columns[i], s.rowCount, store, offset, base, end, row);
      } else {
        PlainText(s.columns[i], s.rowCount, store, offset, base, row);
      }
    }

    lemma Lz4Text(c: ColumnView, n: nat, store: Store, offset: nat, base: nat, end: nat, row: nat)
      requires WellFormed(c, n) && NullsEmpty(c, n) && IsVarlen(c.ftype) && base <= row < end <= n && IsLz4(c)
      requires store == BatchStore(c, n, base, end) && BatchOffset(c, n, offset, base, row)
      ensures TextHeld(c, n, store, offset, base, row)
    {
      hide Unpacked, NullsEmpty;
      var whole := Unpacked(c, n);
      WindowOfTexts(whole.lengths, whole.bytes, base, end, row);
      if !c.valid[row] {
        NullIsEmpty(c, n, row);
      }
    }

    lemma PlainText(c: ColumnView, n: nat, store: Store, offset: nat, base: nat, row: nat)
      requires WellFormed(c, n) && NullsEmpty(c, n) && IsVarlen(c.ftype) && base <= row < n && !IsLz4(c)
      requires store == c.store && BatchOffset(c, n, offset, base, row)
      ensures base == 0 && TextHeld(c, n, store, offset, base, row)
    {
      hide NullsEmpty;
      SumToMonotone(store.lengths, row + 1, n);
      if !c.valid[row] {
        NullIsEmpty(c, n, row);
      }
    }

    lemma NullIsEmpty(c: ColumnView, n: nat, r: nat)
      requires WellFormed(c, n) && NullsEmpty(c, n) && IsVarlen(c.ftype) && r < n && !c.valid[r]
      ensures Unpacked(c, n).lengths[r] == 0
    {
    }

    /** A row's bytes, found in the bytes of the rows [base, end) of its column. */
    lemma WindowOfTexts(lengths: seq<nat>, bytes: seq<byte>, base: nat, end: nat, row: nat)
      requires base <= row < end <= |lengths| && SumTo(lengths, |lengths|) <= |bytes|
      ensures SumTo(lengths, base) <= SumTo(lengths, row) <= SumTo(lengths, row + 1) <= SumTo(lengths, end) <= |bytes|
      ensures var first := SumTo(lengths, base);
              bytes[first..SumTo(lengths, end)][SumTo(lengths, row) - first..SumTo(lengths, row + 1) - first]
              == TextAt(lengths, bytes, row)
    {
      SumToMonotone(lengths, base, row);
      SumToMonotone(lengths, row + 1, end);
      SumToMonotone(lengths, end, |lengths|);
      SliceOfSlice(bytes, SumTo(lengths, base), SumTo(lengths, end),
                   SumTo(lengths, row) - SumTo(lengths, base), SumTo(lengths, row + 1) - SumTo(lengths, base));
    }

    method AdvanceBatchOffsets(s: ScanSegment, stores: seq<Store>, offsets: seq<nat>, base: nat, end: nat, row: nat)
        returns (offsets': seq<nat>)
      requires Readable(s) && s.compressed && OutputsFit(outs, s.columns) && base <= row < end <= s.rowCount
      requires BatchReady(s, stores, base, end) && BatchOffsetsAt(s, offsets, base, row)
      ensures BatchOffsetsAt(s, offsets', base, row + 1)
    {
      hide BatchHolds, BatchOffset, WellFormed, NullsEmpty;
      offsets' := offsets;
      for i := 0 to |outs|
        invariant |offsets'| == |outs|
        invariant forall j :: i <= j < |outs| ==> offsets'[j] == offsets[j]
        invariant forall j :: 0 <= j < i && IsVarlen(outs[j].ftype) ==>
                    BatchOffset(s.columns[outs[j].index], s.rowCount, offsets'[j], base, row + 1)
      {
        if IsVarlen(outs[i].ftype) {
          assert Needed(outs[i].index);
          BatchText(s, outs[i].index, stores[outs[i].index], offsets[i], base, end, row);
          offsets' := offsets'[i := offsets'[i] + stores[outs[i].index].lengths[row - base]];
        }
      }
    }

    method BatchRow(s: ScanSegment, stores: seq<Store>, offsets: seq<nat>, base: nat, end: nat, row: nat)
        returns (values: ValueRow, offsets': seq<nat>)
      requires Readable(s) && s.compressed && OutputsFit(outs, s.columns) && base <= row < end <= s.rowCount
      requires BatchReady(s, stores, base, end) && BatchOffsetsAt(s, offsets, base, row)
      ensures values == RowValues(outs, s, row)
      ensures BatchOffsetsAt(s, offsets', base, row + 1)
    {
      hide BatchHolds, BatchOffset, WellFormed, NullsEmpty;
      values, offsets' := [], offsets;
      for i := 0 to |outs|
        invariant values == RowValues(outs, s, row)[..i]
        invariant |offsets'| == |outs|
        invariant forall j :: i <= j < |outs| ==> offsets'[j] == offsets[j]
        invariant forall j :: 0 <= j < i && IsVarlen(outs[j].ftype) ==>
                    BatchOffset(s.columns[outs[j].index], s.rowCount, offsets'[j], base, row + 1)
      {
        var index := outs[i].index;
        assert Needed(index);
        var v, offset := BatchCell(s, index, stores[index], offsets[i], base, end, row);
        values := values + [v];
        offsets' := offsets'[i := offset];
      }
    }

    method BatchCell(s: ScanSegment, i: nat, store: Store, offset: nat, base: nat, end: nat, row: nat)
        returns (v: Value, offset': nat)
      requires Readable(s) && s.compressed && i < |s.columns| && base <= row < end <= s.rowCount
      requires BatchHolds(s, i, store, base, end)
      requires IsVarlen(s.columns[i].ftype) ==> BatchOffset(s.columns[i], s.rowCount, offset, base, row)
      ensures v == ValueAt(s.columns[i], s.rowCount, row)
      ensures IsVarlen(s.columns[i].ftype) ==> BatchOffset(s.columns[i], s.rowCount, offset', base, row + 1)
    {
      hide BatchHolds, BatchOffset, Literals, Numbers;
      var c := s.columns[i];
      BatchValue(s, i, store, base, end, row);
      if IsVarlen(c.ftype) {
        BatchText(s, i, store, offset, base, end, row);
      }
      v, offset' := ReadCompressed(c.valid[row], store, Place(c, base, row), offset);
    }

    /** One row of the loop of scan_compressed_lz4. */
    method BatchStep(s: ScanSegment, stores: seq<Store>, offsets: seq<nat>, base: nat, end: nat, row: nat)
        returns (offsets': seq<nat>)
      requires Valid() && !stop && ConstantsExact(s)
      requires Readable(s) && s.compressed && OutputsFit(outs, s.columns) && base <= row < end <= s.rowCount
      requires InRange(preds, |s.columns|)
      requires BatchReady(s, stores, base, end) && BatchOffsetsAt(s, offsets, base, row)
      modifies this
      ensures Valid() && BatchOffsetsAt(s, offsets', base, row + 1)
      ensures State() == if Matches(preds, s, row) then Offer(old(State()), RowValues(outs, s, row)) else old(State())
    {
      hide Readable, Matches, RowValues, Rendered, BatchReady, BatchOffsetsAt;
      var keep := RowMatches(s, stores, base, end, row);
      if !keep || remainingOffset > 0 {
        if keep {
          remainingOffset := remainingOffset - 1;
        }
        offsets' := AdvanceBatchOffsets(s, stores, offsets, base, end, row);
      } else {
        var values;
        values, offsets' := BatchRow(s, stores, offsets, base, end, row);
        Emit(values);
      }
    }

    /** The rows of one batch; the offset of every string output starts at 0. */
    method ScanBatch(s: ScanSegment, stores: seq<Store>, base: nat, end: nat, ghost initial: Cut)
      requires Valid() && !stop && ConstantsExact(s)
      requires Readable(s) && s.compressed && OutputsFit(outs, s.columns) && BatchesSuffice(s) && InRange(preds, |s.columns|)
      requires base < end <= s.rowCount && (base == 0 || base >= BATCH_ROWS)
      requires BatchReady(s, stores, base, end)
      requires State() == OfferAll(initial, MatchingUpTo(preds, outs, s, base))
      modifies this
      ensures Valid()
      ensures stop ==> State() == OfferAll(initial, Matching(preds, outs, s))
      ensures !stop ==> State() == OfferAll(initial, MatchingUpTo(preds, outs, s, end))
    {
      hide Readable, Offer, OfferAll, Matches, MatchingUpTo, Matching, RowValues, Rendered, BatchReady, BatchOffsetsAt, InRange;
      var offsets := seq(|outs|, i => 0);
      BatchOffsetsStart(s, offsets, base);
      for row := base to end
        invariant Valid() && !stop
        invariant State() == OfferAll(initial, MatchingUpTo(preds, outs, s, row))
        invariant BatchOffsetsAt(s, offsets, base, row)
      {
        StepMatching(initial, s, row);
        offsets := BatchStep(s, stores, offsets, base, end, row);
        if stop {
          RestIsIgnored(initial, s, row + 1);
          return;
        }
      }
    }

    lemma BatchOffsetsStart(s: ScanSegment, offsets: seq<nat>, base: nat)
      requires Readable(s) && s.compressed && OutputsFit(outs, s.columns) && BatchesSuffice(s)
      requires base < s.rowCount && (base == 0 || base >= BATCH_ROWS)
      requires offsets == seq(|outs|, i => 0)
      ensures BatchOffsetsAt(s, offsets, base, base)
    {
      hide WellFormed, Unpacked, NullsEmpty;
      forall i | 0 <= i < |outs| && IsVarlen(outs[i].ftype)
        ensures BatchOffset(s.columns[outs[i].index], s.rowCount, offsets[i], base, base)
      {
        var c := s.columns[outs[i].index];
        assert WellFormed(c, s.rowCount);
      }
    }

    /** decode_needed: the columns that a predicate or an output names. */
    method DecodeNeeded(n: nat) returns (needed: seq<bool>)
      ensures |needed| == n && forall i :: 0 <= i < n ==> (needed[i] <==> Needed(i))
    {
      needed := seq(n, i => false);
      for k := 0 to |preds|
        invariant |needed| == n
        invariant forall i :: 0 <= i < n ==> (needed[i] <==> exists j :: 0 <= j < k && preds[j].field == i)
      {
        if preds[k].field < n {
          needed := needed[preds[k].field := true];
        }
      }
      for k := 0 to |outs|
        invariant |needed| == n
        invariant forall i :: 0 <= i < n ==>
                    (needed[i] <==> (exists j :: 0 <= j < k && outs[j].index == i) ||
                                    (exists j :: 0 <= j < |preds| && preds[j].field == i))
      {
        if outs[k].index < n {
          needed := needed[outs[k].index := true];
        }
      }
    }

    method ScanLz4(s: ScanSegment, needed: seq<bool>)
      requires Valid() && !stop && ConstantsExact(s)
      requires Readable(s) && s.compressed && OutputsFit(outs, s.columns) && BatchesSuffice(s) && InRange(preds, |s.columns|)
      requires |needed| == |s.columns| && forall i :: 0 <= i < |needed| ==> (needed[i] <==> Needed(i))
      modifies this
      ensures Valid()
      ensures State() == OfferAll(old(State()), Matching(preds, outs, s))
    {
      hide WellFormed, NullsEmpty, Holds, Matches, Offer, OfferAll, MatchingUpTo, Rendered, InRange, Scan.BatchesSuffice, Scan.Needed,
           Scan.ConstantsExact, Decoders.Valid, Decoders.At, LiteralStream.Valid, LiteralStream.Rest;
      ghost var initial := State();
      NothingOffered(initial, s);
      var decoders := new Decoders(s.columns, s.rowCount, needed);
      var base := 0;
      while base < s.rowCount
        invariant 0 <= base <= s.rowCount && (base == 0 || base >= BATCH_ROWS || base == s.rowCount)
        invariant Valid() && !stop
        invariant State() == OfferAll(initial, MatchingUpTo(preds, outs, s, base))
        invariant decoders.Valid() && decoders.At(base)
        decreases s.rowCount - base
      {
        var end := if s.rowCount < base + BATCH_ROWS then s.rowCount else base + BATCH_ROWS;
        var ok, stores := decoders.DecodeBatch(base, end);
        assert BatchReady(s, stores, base, end);
        ScanBatch(s, stores, base, end, initial);
        if stop {
          return;
        }
        base := end;
      }
    }

    // ---------- The loop over segments ----------

    /** The scan's segment_matches: zone maps rule a segment out. */
    method SegmentMatches(s: ScanSegment) returns (may: bool)
      requires Readable(s) && StatsSound(s)
      ensures !may ==> forall r :: 0 <= r < s.rowCount ==> !Matches(preds, s, r)
      ensures may && s.compressed ==> InRange(preds, |s.columns|)
    {
      hide WellFormed, ValueAt, Satisfies, SegmentMatchesPredicate, Bounds;
      if |s.stats| != |s.columns| {
        return true;
      }
      for k := 0 to |preds|
        invariant forall j :: 0 <= j < k ==> preds[j].field < |s.columns|
      {
        var p := preds[k];
        if p.field >= |s.columns| {
          return false;
        }
        if !SegmentMatchesPredicate(s.stats[p.field], p.op, p.value) {
          forall r | 0 <= r < s.rowCount
            ensures !Matches(preds, s, r)
          {
            PruningIsSound(s.stats[p.field], s.columns[p.field], s.rowCount, r, p.op, p.value);
          }
          return false;
        }
      }
      return true;
    }

    /**
     What the executors rely on: comparisons with dictionary values, infinities
     and NaN are not part of this model, and compressed segments need exact
     constants and bool bytes of 0 and 1.
     */
    ghost predicate Scannable(s: ScanSegment) {
      && Readable(s) && StatsSound(s) && OutputsFit(outs, s.columns)
      && (s.compressed ==> ConstantsExact(s) && BatchesSuffice(s) && BoolsExact(s))
      && forall k :: 0 <= k < |preds| && preds[k].field < |s.columns| ==>
           !s.columns[preds[k].field].ftype.DictInt32? && FiniteColumn(s.columns[preds[k].field], s.rowCount)
    }

    /** One segment of the scan. */
    method ScanOne(s: ScanSegment) returns (ok: bool)
      requires Valid() && Scannable(s)
      modifies this
      ensures Valid()
      ensures ok ==> State() == OfferAll(old(State()), Matching(preds, outs, s))
      ensures !ok ==> !s.compressed && !InRange(preds, |s.columns|)
    {
      hide Readable, StatsSound, Offer, OfferAll, Matches, MatchingUpTo, Rendered, InRange, Scan.ConstantsExact, Scan.BatchesSuffice, Scan.Needed;
      if stop {
        StoppedForGood(State(), Matching(preds, outs, s));
        return true;
      }
      var may := SegmentMatches(s);
      if !may {
        NothingMatches(preds, outs, s, s.rowCount);
        NothingOffered(State(), s);
        assert OfferAll(State(), []) == State() by {
          EmptyOffer(State());
        }
        return true;
      }
      if s.compressed {
        ScanColumns(s);
        return true;
      }
      ok := ScanFields(s);
    }

    lemma EmptyOffer(c: Cut)
      ensures OfferAll(c, []) == c
    {
    }

    /** A sealed segment: the batch executor if a column that is needed is LZ4. */
    method ScanColumns(s: ScanSegment)
      requires Valid() && !stop && Scannable(s) && s.compressed && InRange(preds, |s.columns|)
      modifies this
      ensures Valid()
      ensures State() == OfferAll(old(State()), Matching(preds, outs, s))
    {
      hide Readable, StatsSound, Offer, OfferAll, MatchingUpTo, Rendered, Scan.ConstantsExact, Scan.BatchesSuffice;
      var needed := DecodeNeeded(|s.columns|);
      var hasLz4 := false;
      for i := 0 to |s.columns|
        invariant Valid() && State() == old(State())
        invariant !hasLz4 ==> forall j :: 0 <= j < i && needed[j] ==> !IsLz4(s.columns[j])
      {
        if needed[i] && IsLz4(s.columns[i]) {
          hasLz4 := true;
          break;
        }
      }
      if hasLz4 {
        ScanLz4(s, needed);
      } else {
        forall i | 0 <= i < |outs|
          ensures !IsLz4(s.columns[outs[i].index])
        {
          assert Needed(outs[i].index);
        }
        forall k | 0 <= k < |preds|
          ensures !IsLz4(s.columns[preds[k].field])
        {
          assert Needed(preds[k].field);
        }
        ScanCompressed(s);
      }
    }

    /**
     The scan returns filter, then drop, then take over the rows of all
     segments, however the rows are divided and stored. It is refused only for
     a predicate that names no column.
     */
    method Run(segments: seq<ScanSegment>) returns (ok: bool)
      requires Valid() && Emitted == [] && !stop
      requires AllReadable(outs, segments) && forall i :: 0 <= i < |segments| ==> Scannable(segments[i])
      modifies this
      ensures ok ==>
        && var rows := Take(Drop(AllMatching(preds, outs, segments), old(remainingOffset)), old(remainingLimit));
           outputs == Rendered(outs, rows)
      ensures !ok ==> exists i :: 0 <= i < |segments| && !segments[i].compressed && !InRange(preds, |segments[i].columns|)
    {
      hide Scan.Scannable, Readable, Offer, OfferAll, Matching, MatchingUpTo, AllMatching, Rendered, InRange;
      ghost var initial := State();
      var i := 0;
      NoSegments(initial);
      while i < |segments|
        invariant 0 <= i <= |segments|
        invariant Valid() && AllReadable(outs, segments[..i])
        invariant State() == OfferAll(initial, AllMatching(preds, outs, segments[..i]))
      {
        ok := ScanOne(segments[i]);
        if !ok {
          return;
        }
        assert segments[..i + 1] == segments[..i] + [segments[i]];
        AllMatchingLast(preds, outs, segments[..i], segments[i]);
        OfferAllConcat(initial, AllMatching(preds, outs, segments[..i]), Matching(preds, outs, segments[i]));
        i := i + 1;
      }
      assert segments[..|segments|] == segments;
      OfferAllIsDropTake(initial, AllMatching(preds, outs, segments));
      assert Emitted == Take(Drop(AllMatching(preds, outs, segments), initial.offset), initial.limit);
      ok := true;
    }

    lemma NoSegments(initial: Cut)
      ensures AllReadable(outs, [])
      ensures OfferAll(initial, AllMatching(preds, outs, [])) == initial
    {
    }
  }

  const BATCH_ROWS := 4096

  /** The zone map of a column, as the engine's ComputeStats builds it, over exact numbers. */
  method ComputeStats(c: ColumnView, n: nat) returns (stats: ColumnStats)
    requires WellFormed(c, n) && !IsLz4(c) && (IsNumeric(c.ftype) || IsVarlen(c.ftype))
    ensures Bounds(stats, c, n)
    ensures stats.hasValue ==> Attained(c, n, stats.min) && Attained(c, n, stats.max)
  {
    hide NumberOf, WellFormed;
    stats := ColumnStats(false, 0.0, 0.0);
    if IsVarlen(c.ftype) {
      return;
    }
    for i := 0 to n
      invariant forall r :: 0 <= r < i && ValueAt(c, n, r).Fixed? ==>
                  stats.hasValue && stats.min <= NumberOf(c.ftype, ValueAt(c, n, r).raw) <= stats.max
      invariant stats.hasValue ==> Attained(c, n, stats.min) && Attained(c, n, stats.max)
    {
      var v := FieldValue(c, n, i);
      if v.Fixed? {
        var x := NumberOf(c.ftype, v.raw);
        assert Attained(c, n, x);
        if !stats.hasValue {
          stats := ColumnStats(true, x, x);
        } else {
          if x < stats.min {
            stats := stats.(min := x);
          }
          if x > stats.max {
            stats := stats.(max := x);
          }
        }
      }
    }
  }

  /** Some row of the column holds the number `x`. */
  ghost predicate Attained(c: ColumnView, n: nat, x: real)
    requires WellFormed(c, n)
  {
    exists r :: 0 <= r < n && ValueAt(c, n, r).Fixed? && NumberOf(c.ftype, ValueAt(c, n, r).raw) == x
  }
}
