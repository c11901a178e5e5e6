/** Decoding LZ4 columns batch by batch from two literal streams per column. */
module Lz4Batches {
  import opened Bytes
  import opened Table
  import opened Predicates
  import opened Lz4
  import opened Views
  import opened NumberArrays
  import Arithmetic

  /** The rows [base, end) of a column, as one batch holds them. */
  ghost function BatchStore(c: ColumnView, n: nat, base: nat, end: nat): Store
    requires WellFormed(c, n) && base <= end <= n
  {
    match Unpacked(c, n)
    case RawNumbers(raws) => RawNumbers(raws[base..end])
    case RawTexts(lengths, bytes) =>
      SumToMonotone(lengths, base, end);
      SumToMonotone(lengths, end, n);
      RawTexts(lengths[base..end], bytes[SumTo(lengths, base)..SumTo(lengths, end)])
    case other => other
  }

  /** The streams of a column stand at row `base`. */
  ghost predicate Positioned(c: ColumnView, n: nat, data: LiteralStream, aux: LiteralStream, base: nat)
    requires WellFormed(c, n) && base <= n
    reads data, aux
  {
    && data.Valid() && aux.Valid()
    && match c.store
       case Lz4Numbers(block) => data.Rest() == From(Literals(block, 0), Width(c.ftype) * base)
       case Lz4Texts(lengthBlock, byteBlock) =>
         && aux.Rest() == From(Literals(lengthBlock, 0), 4 * base)
         && data.Rest() == From(Literals(byteBlock, 0), SumTo(Unpacked(c, n).lengths, base))
       case _ => true
  }

  function From(s: seq<byte>, k: nat): seq<byte> {
    if k <= |s| then s[k..] else []
  }

  lemma FromSlice(s: seq<byte>, k: nat, m: nat)
    requires k + m <= |s|
    ensures From(s, k)[..m] == s[k..k + m] && From(s, k)[m..] == From(s, k + m) && m <= |From(s, k)|
  {
  }

  /** A batch of numbers, read in one piece. */
  method ReadNumbers(stream: LiteralStream, ghost all: seq<byte>, w: nat, base: nat, rows: nat, ghost n: nat)
      returns (ok: bool, raws: seq<nat>)
    requires stream.Valid() && stream.Rest() == From(all, w * base)
    requires base + rows <= n && w * n <= |all|
    modifies stream
    ensures ok && stream.Valid() && stream.Rest() == From(all, w * (base + rows))
    ensures raws == Numbers(all, w, n)[base..base + rows]
  {
    hide Numbers, LiteralStream.Rest, LiteralStream.Valid;
    var bytes := w * rows;
    WindowFits(w, base, rows, n);
    FromSlice(all, w * base, bytes);
    var dst := new byte[bytes];
    ok := stream.Read(dst, bytes);
    ghost var window := dst[..];
    assert dst[..bytes] == window;
    NumbersWindow(all, w, base, rows, n);
    raws := Numbers(dst[..], w, rows);
  }

  lemma WindowFits(w: nat, base: nat, rows: nat, n: nat)
    requires base + rows <= n
    ensures w * base + w * rows == w * (base + rows) <= w * n
  {
    Arithmetic.Distribute(w, base, rows);
    Arithmetic.Distribute(w, n, base + rows);
    Arithmetic.NonNegative(w, n - (base + rows));
  }

  lemma NumbersWindow(all: seq<byte>, w: nat, base: nat, rows: nat, n: nat)
    requires base + rows <= n && w * n <= |all|
    ensures w * base + w * rows <= |all|
    ensures Numbers(all[w * base..w * base + w * rows], w, rows) == Numbers(all, w, n)[base..base + rows]
  {
    hide FromLittleEndian;
    WindowFits(w, base, rows, n);
    var lhs := Numbers(all[w * base..w * base + w * rows], w, rows);
    var rhs := Numbers(all, w, n)[base..base + rows];
    forall r | 0 <= r < rows
      ensures lhs[r] == rhs[r]
    {
      NumberInWindow(all, w, base, rows, n, r);
    }
  }

  lemma NumberInWindow(all: seq<byte>, w: nat, base: nat, rows: nat, n: nat, r: nat)
    requires base + rows <= n && r < rows
    requires w * n <= |all| && w * base + w * rows <= |all|
    ensures w * r + w <= w * rows && w * (base + r) + w <= |all|
    ensures NumberAt(all[w * base..w * base + w * rows], w, r) == NumberAt(all, w, base + r)
  {
    hide FromLittleEndian;
    NumberFits(w, r, rows);
    NumberFits(w, base + r, n);
    Arithmetic.Distribute(w, base, r);
    SliceOfSlice(all, w * base, w * base + w * rows, w * r, w * r + w);
  }

  lemma SliceOfSlice(s: seq<byte>, a: nat, b: nat, i: nat, j: nat)
    requires a <= b <= |s| && i <= j <= b - a
    ensures s[a..b][i..j] == s[a + i..a + j]
  {
    forall k | 0 <= k < j - i
      ensures s[a..b][i..j][k] == s[a + i..a + j][k]
    {
    }
  }

  lemma {:induction false} SumToWindow(lengths: seq<nat>, base: nat, k: nat)
    requires base + k <= |lengths|
    ensures SumTo(lengths[base..base + k], k) == SumTo(lengths, base + k) - SumTo(lengths, base)
  {
    if k != 0 {
      var window, shorter := lengths[base..base + k], lengths[base..base + k - 1];
      assert window == shorter + [lengths[base + k - 1]];
      SumToWindow(lengths, base, k - 1);
      SumToPrefix(shorter, [lengths[base + k - 1]], k - 1);
    }
  }

  lemma {:induction false} SumToPrefix(lengths: seq<nat>, more: seq<nat>, k: nat)
    requires k <= |lengths|
    ensures SumTo(lengths + more, k) == SumTo(lengths, k)
  {
    if k != 0 {
      SumToPrefix(lengths, more, k - 1);
    }
  }

  /** The bytes of a batch of strings: as many as its lengths add up to. */
  method ReadTexts(stream: LiteralStream, ghost all: seq<byte>, ghost lengths: seq<nat>, batch: seq<nat>, ghost base: nat)
      returns (ok: bool, bytes: seq<byte>)
    requires stream.Valid()
    requires base + |batch| <= |lengths| && batch == lengths[base..base + |batch|]
    requires SumTo(lengths, |lengths|) <= |all|
    requires stream.Rest() == From(all, SumTo(lengths, base))
    modifies stream
    ensures ok && stream.Valid() && stream.Rest() == From(all, SumTo(lengths, base + |batch|))
    ensures SumTo(lengths, base) <= SumTo(lengths, base + |batch|) <= |all|
    ensures bytes == all[SumTo(lengths, base)..SumTo(lengths, base + |batch|)]
  {
    hide LiteralStream.Rest, LiteralStream.Valid;
    var total := 0;
    for r := 0 to |batch|
      invariant total == SumTo(batch, r)
    {
      total := total + batch[r];
    }
    SumToWindow(lengths, base, |batch|);
    SumToMonotone(lengths, base + |batch|, |lengths|);
    FromSlice(all, SumTo(lengths, base), total);
    var dst := new byte[total];
    ok := true;
    if total > 0 {
      ok := stream.Read(dst, total);
    }
    assert dst[..total] == dst[..];
    bytes := dst[..];
  }

  /** One column of one batch. */
  method DecodeColumn(c: ColumnView, ghost n: nat, data: LiteralStream, aux: LiteralStream, base: nat, end: nat)
      returns (ok: bool, store: Store)
    requires WellFormed(c, n) && IsLz4(c) && base <= end <= n && data != aux
    requires Positioned(c, n, data, aux, base)
    modifies data, aux
    ensures ok && store == BatchStore(c, n, base, end)
    ensures Positioned(c, n, data, aux, end)
  {
    hide Literals, Numbers, SumTo, LiteralStream.Rest, LiteralStream.Valid;
    match c.store {
      case Lz4Numbers(block) =>
        ghost var all := Literals(block, 0);
        var raws;
        ok, raws := ReadNumbers(data, all, Width(c.ftype), base, end - base, n);
        store := RawNumbers(raws);
      case Lz4Texts(lengthBlock, byteBlock) =>
        ghost var lengths := Unpacked(c, n).lengths;
        var batch, bytes;
        ok, batch := ReadNumbers(aux, Literals(lengthBlock, 0), 4, base, end - base, n);
        ok, bytes := ReadTexts(data, Literals(byteBlock, 0), lengths, batch, base);
        store := RawTexts(batch, bytes);
    }
  }

  /** What the batch [base, end) makes of a column: decoded if it is LZ4, else the column itself. */
  ghost predicate Holds(c: ColumnView, n: nat, store: Store, base: nat, end: nat)
    requires WellFormed(c, n) && base <= end <= n
  {
    store == if IsLz4(c) then BatchStore(c, n, base, end) else c.store
  }

  /** The literal streams of the LZ4 columns that a scan reads: values or bytes in `data`, lengths in `aux`. */
  class Decoders {
    const columns: seq<ColumnView>
    const rowCount: nat
    const needed: seq<bool>
    const data: seq<LiteralStream>
    const aux: seq<LiteralStream>

    ghost predicate Valid() {
      && |needed| == |columns| == |data| == |aux|
      && (forall i :: 0 <= i < |columns| ==> WellFormed(columns[i], rowCount))
      && (forall i, j :: 0 <= i < |data| && 0 <= j < |aux| ==> data[i] != aux[j])
      && (forall i, j :: 0 <= i < j < |data| ==> data[i] != data[j])
      && (forall i, j :: 0 <= i < j < |aux| ==> aux[i] != aux[j])
    }

    /** The streams of the columns [from, to) stand at row `base`. */
    ghost predicate Range(from: nat, to: nat, base: nat)
      requires Valid() && from <= to <= |columns| && base <= rowCount
      reads data, aux
    {
      forall i :: from <= i < to && needed[i] && IsLz4(columns[i]) ==>
        Positioned(columns[i], rowCount, data[i], aux[i], base)
    }

    ghost predicate At(base: nat)
      requires Valid() && base <= rowCount
      reads data, aux
    {
      Range(0, |columns|, base)
    }

    constructor (columns: seq<ColumnView>, rowCount: nat, needed: seq<bool>)
      requires |needed| == |columns|
      requires forall i :: 0 <= i < |columns| ==> WellFormed(columns[i], rowCount)
      ensures Valid() && At(0)
      ensures this.columns == columns && this.rowCount == rowCount && this.needed == needed
      ensures fresh(data) && fresh(aux)
    {
      hide WellFormed, LiteralStream.Rest, LiteralStream.Valid, Literals;
      this.columns, this.rowCount, this.needed := columns, rowCount, needed;
      var d: seq<LiteralStream>, a: seq<LiteralStream> := [], [];
      for k := 0 to |columns|
        invariant |d| == |a| == k
        invariant forall i :: 0 <= i < k ==> fresh(d[i]) && fresh(a[i])
        invariant forall i, j :: 0 <= i < k && 0 <= j < k ==> d[i] != a[j]
        invariant forall i, j :: 0 <= i < j < k ==> d[i] != d[j]
        invariant forall i, j :: 0 <= i < j < k ==> a[i] != a[j]
        invariant forall i :: 0 <= i < k && IsLz4(columns[i]) ==> Positioned(columns[i], rowCount, d[i], a[i], 0)
      {
        var dk, ak := Open(columns[k], rowCount);
        d, a := d + [dk], a + [ak];
      }
      data, aux := d, a;
    }

    static method Open(c: ColumnView, ghost n: nat) returns (data: LiteralStream, aux: LiteralStream)
      requires WellFormed(c, n)
      ensures fresh(data) && fresh(aux) && data != aux
      ensures IsLz4(c) ==> Positioned(c, n, data, aux, 0)
    {
      match c.store {
        case Lz4Numbers(block) =>
          data := new LiteralStream(block);
          aux := new LiteralStream([]);
          assert Width(c.ftype) * 0 == 0;
        case Lz4Texts(lengthBlock, byteBlock) =>
          data := new LiteralStream(byteBlock);
          aux := new LiteralStream(lengthBlock);
        case _ =>
          data := new LiteralStream([]);
          aux := new LiteralStream([]);
      }
    }

    method DecodeBatch(base: nat, end: nat) returns (ok: bool, stores: seq<Store>)
      requires Valid() && base <= end <= rowCount && At(base)
      modifies data, aux
      ensures ok && At(end) && |stores| == |columns|
      ensures forall i :: 0 <= i < |columns| && (needed[i] || !IsLz4(columns[i])) ==>
                Holds(columns[i], rowCount, stores[i], base, end)
    {
      hide WellFormed, Positioned, BatchStore;
      ok, stores := true, [];
      for i := 0 to |columns|
        invariant ok && |stores| == i && Range(0, i, end) && Range(i, |columns|, base)
        invariant forall j :: 0 <= j < i && (needed[j] || !IsLz4(columns[j])) ==>
                    Holds(columns[j], rowCount, stores[j], base, end)
      {
        var store := columns[i].store;
        if needed[i] && IsLz4(columns[i]) {
          ok, store := DecodeColumn(columns[i], rowCount, data[i], aux[i], base, end);
        }
        stores := stores + [store];
      }
    }
  }
}
