/** The stored forms of a column that a scan reads, and the values that they hold. */
module Views {
  import opened Bytes
  import opened Table
  import opened Predicates
  import opened Lz4
  import opened NumberArrays

  /**
   The forms of a column. `RawNumbers` stands for every form that the engine
   reads by row: uncompressed, dictionary, bit-packed and frame-of-reference.
   */
  datatype Store =
    | RawNumbers(raws: seq<nat>)
    | RawTexts(lengths: seq<nat>, bytes: seq<byte>)
    | Lz4Numbers(block: seq<byte>)
    | Lz4Texts(lengthBlock: seq<byte>, byteBlock: seq<byte>)

  datatype ColumnView = ColumnView(ftype: FieldType, valid: seq<bool>, store: Store)

  predicate IsLz4(c: ColumnView) { c.store.Lz4Numbers? || c.store.Lz4Texts? }

  function SumTo(lengths: seq<nat>, r: nat): nat
    requires r <= |lengths|
  {
    if r == 0 then 0 else SumTo(lengths, r - 1) + lengths[r - 1]
  }

  lemma {:induction false} SumToMonotone(lengths: seq<nat>, i: nat, j: nat)
    requires i <= j <= |lengths|
    ensures SumTo(lengths, i) <= SumTo(lengths, j)
    decreases j
  {
    if i < j {
      SumToMonotone(lengths, i, j - 1);
    }
  }

  /** The store before compression. */
  function Unpacked(c: ColumnView, n: nat): Store
    requires c.store.Lz4Numbers? ==> Width(c.ftype) * n <= |Literals(c.store.block, 0)|
    requires c.store.Lz4Texts? ==> 4 * n <= |Literals(c.store.lengthBlock, 0)|
  {
    match c.store
    case Lz4Numbers(block) => RawNumbers(Numbers(Literals(block, 0), Width(c.ftype), n))
    case Lz4Texts(lengthBlock, byteBlock) =>
      RawTexts(Numbers(Literals(lengthBlock, 0), 4, n), Literals(byteBlock, 0))
    case raw => raw
  }

  /** The column holds `n` values of its type. */
  ghost predicate WellFormed(c: ColumnView, n: nat) {
    && |c.valid| == n
    && (c.store.Lz4Numbers? ==> Width(c.ftype) * n <= |Literals(c.store.block, 0)|)
    && (c.store.Lz4Texts? ==> 4 * n <= |Literals(c.store.lengthBlock, 0)|)
    && var s := Unpacked(c, n);
       if IsVarlen(c.ftype) then s.RawTexts? && |s.lengths| == n && SumTo(s.lengths, n) <= |s.bytes|
       else s.RawNumbers? && |s.raws| == n
  }

  /** A null string stores no bytes. */
  ghost predicate NullsEmpty(c: ColumnView, n: nat)
    requires WellFormed(c, n)
  {
    IsVarlen(c.ftype) ==> forall r :: 0 <= r < n && !c.valid[r] ==> Unpacked(c, n).lengths[r] == 0
  }

  function TextAt(lengths: seq<nat>, bytes: seq<byte>, r: nat): seq<byte>
    requires r < |lengths| && SumTo(lengths, |lengths|) <= |bytes|
  {
    SumToMonotone(lengths, r + 1, |lengths|);
    bytes[SumTo(lengths, r)..SumTo(lengths, r + 1)]
  }

  ghost function ValueAt(c: ColumnView, n: nat, r: nat): Value
    requires WellFormed(c, n) && r < n
  {
    if !c.valid[r] then Missing
    else
      match Unpacked(c, n)
      case RawNumbers(raws) => Fixed(raws[r])
      case RawTexts(lengths, bytes) => Content(TextAt(lengths, bytes, r))
      case _ => Missing
  }

  ghost predicate FiniteColumn(c: ColumnView, n: nat)
    requires WellFormed(c, n)
  {
    forall r :: 0 <= r < n ==> IsFinite(ValueAt(c, n, r), c.ftype)
  }

  /** A bool column holds nothing but 0 and 1. */
  ghost predicate BoolColumn(c: ColumnView, n: nat)
    requires WellFormed(c, n)
  {
    c.ftype.Bool? ==> forall r :: 0 <= r < n && ValueAt(c, n, r).Fixed? ==> ValueAt(c, n, r).raw <= 1
  }

  // ---------- The running offsets of the compressed executors ----------

  /**
   The offset that a scan loop has reached at row `r`: it adds the length of
   every row except the nulls that it emits.
   */
  function RunningOffset(valid: seq<bool>, lengths: seq<nat>, emitted: seq<bool>, r: nat): nat
    requires r <= |valid| && r <= |lengths| && r <= |emitted|
  {
    if r == 0 then 0
    else RunningOffset(valid, lengths, emitted, r - 1) +
         if emitted[r - 1] && !valid[r - 1] then 0 else lengths[r - 1]
  }

  lemma {:induction false} RunningOffsetPrefix(valid: seq<bool>, lengths: seq<nat>, emitted: seq<bool>, more: seq<bool>, r: nat)
    requires r <= |valid| && r <= |lengths| && r <= |emitted|
    ensures RunningOffset(valid, lengths, emitted + more, r) == RunningOffset(valid, lengths, emitted, r)
  {
    if r != 0 {
      RunningOffsetPrefix(valid, lengths, emitted, more, r - 1);
    }
  }

  lemma {:induction false} RunningOffsetIsSum(valid: seq<bool>, lengths: seq<nat>, emitted: seq<bool>, r: nat)
    requires r <= |valid| && r <= |lengths| && r <= |emitted|
    requires forall i :: 0 <= i < r && !valid[i] ==> lengths[i] == 0
    ensures RunningOffset(valid, lengths, emitted, r) == SumTo(lengths, r)
  {
    if r != 0 {
      RunningOffsetIsSum(valid, lengths, emitted, r - 1);
    }
  }

  lemma {:induction false} RunningOffsetAtMostSum(valid: seq<bool>, lengths: seq<nat>, emitted: seq<bool>, r: nat, k: nat)
    requires k < r <= |valid| && r <= |lengths| && r <= |emitted|
    requires emitted[k] && !valid[k]
    ensures RunningOffset(valid, lengths, emitted, r) + lengths[k] <= SumTo(lengths, r)
  {
    if k < r - 1 {
      RunningOffsetAtMostSum(valid, lengths, emitted, r - 1, k);
    } else {
      RunningOffsetBelowSum(valid, lengths, emitted, k);
    }
  }

  lemma {:induction false} RunningOffsetBelowSum(valid: seq<bool>, lengths: seq<nat>, emitted: seq<bool>, r: nat)
    requires r <= |valid| && r <= |lengths| && r <= |emitted|
    ensures RunningOffset(valid, lengths, emitted, r) <= SumTo(lengths, r)
  {
    if r != 0 {
      RunningOffsetBelowSum(valid, lengths, emitted, r - 1);
    }
  }

  /**
   The loops find row `r` of a string column at the sum of the lengths before
   it, whichever rows they emit, exactly when no null before it stores bytes.
   */
  lemma RunningOffsetExact(valid: seq<bool>, lengths: seq<nat>, r: nat)
    requires r <= |valid| && r <= |lengths|
    ensures (forall emitted: seq<bool> :: |emitted| == r ==>
               RunningOffset(valid, lengths, emitted, r) == SumTo(lengths, r))
            <==> forall i :: 0 <= i < r && !valid[i] ==> lengths[i] == 0
  {
    if forall i :: 0 <= i < r && !valid[i] ==> lengths[i] == 0 {
      forall emitted: seq<bool> | |emitted| == r
        ensures RunningOffset(valid, lengths, emitted, r) == SumTo(lengths, r)
      {
        RunningOffsetIsSum(valid, lengths, emitted, r);
      }
    } else {
      var k :| 0 <= k < r && !valid[k] && lengths[k] != 0;
      var emitted := seq(r, i => true);
      RunningOffsetAtMostSum(valid, lengths, emitted, r, k);
    }
  }
}
