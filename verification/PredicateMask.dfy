/** The server's row-by-row evaluation of predicates on uncompressed columns. */
module PredicateMask {
  import opened Bytes
  import opened Table
  import opened Predicates
  import opened Views
  import opened ScanTable

  /** Every predicate names one of `n` columns. */
  predicate InRange(preds: seq<Predicate>, n: nat) {
    forall k :: 0 <= k < |preds| ==> preds[k].field < n
  }

  /** The value of row `r` of an uncompressed column; a string's offset is summed up from the first row. */
  method FieldValue(c: ColumnView, n: nat, r: nat) returns (v: Value)
    requires WellFormed(c, n) && !IsLz4(c) && r < n
    ensures v == ValueAt(c, n, r)
  {
    if !c.valid[r] {
      return Missing;
    }
    match c.store {
      case RawNumbers(raws) =>
        v := Fixed(raws[r]);
      case RawTexts(lengths, bytes) =>
        var offset := 0;
        for i := 0 to r
          invariant offset == SumTo(lengths, i)
        {
          offset := offset + lengths[i];
        }
        SumToMonotone(lengths, r + 1, |lengths|);
        v := Content(bytes[offset..offset + lengths[r]]);
    }
  }

  /** BuildPredicateMask: one pass over the mask for every predicate. */
  method BuildPredicateMask(preds: seq<Predicate>, s: ScanSegment) returns (ok: bool, mask: seq<bool>)
    requires Readable(s) && !s.compressed
    ensures ok <==> InRange(preds, |s.columns|)
    ensures ok ==> |mask| == s.rowCount
    ensures ok ==> forall r :: 0 <= r < s.rowCount ==> (mask[r] <==> Matches(preds, s, r))
  {
    mask := seq(s.rowCount, i => true);
    for k := 0 to |preds|
      invariant |mask| == s.rowCount
      invariant forall j :: 0 <= j < k ==> preds[j].field < |s.columns|
      invariant forall r :: 0 <= r < s.rowCount ==> (mask[r] <==> Matches(preds[..k], s, r))
    {
      if preds[k].field >= |s.columns| {
        return false, mask;
      }
      mask := ApplyPredicate(preds, s, k, mask);
    }
    assert preds[..|preds|] == preds;
    ok := true;
  }

  method ApplyPredicate(preds: seq<Predicate>, s: ScanSegment, k: nat, mask: seq<bool>) returns (mask': seq<bool>)
    requires Readable(s) && !s.compressed && |mask| == s.rowCount
    requires k < |preds| && preds[k].field < |s.columns|
    requires forall r :: 0 <= r < s.rowCount ==> (mask[r] <==> Matches(preds[..k], s, r))
    ensures |mask'| == s.rowCount
    ensures forall r :: 0 <= r < s.rowCount ==> (mask'[r] <==> Matches(preds[..k + 1], s, r))
  {
    hide ValueAt, Satisfies;
    var p := preds[k];
    var c := s.columns[p.field];
    mask' := mask;
    for r := 0 to s.rowCount
      invariant |mask'| == s.rowCount
      invariant forall j :: 0 <= j < r ==> (mask'[j] <==> Matches(preds[..k + 1], s, j))
      invariant forall j :: r <= j < s.rowCount ==> mask'[j] == mask[j]
    {
      assert preds[..k + 1] == preds[..k] + [p];
      if mask'[r] {
        var v := FieldValue(c, s.rowCount, r);
        if !Satisfies(v, c.ftype, p.op, p.value) {
          mask' := mask'[r := false];
        }
      }
    }
  }
}
