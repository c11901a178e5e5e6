/** Arrays of fixed-width numbers as byte strings. */
module NumberArrays {
  import opened Bytes
  import Arithmetic

  /** The r-th little-endian number of `w` bytes. */
  function NumberAt(bytes: seq<byte>, w: nat, r: nat): nat
    requires w * r + w <= |bytes|
  {
    FromLittleEndian(bytes[w * r..w * r + w])
  }

  lemma NumberFits(w: nat, r: nat, n: nat)
    requires r < n
    ensures w * r + w <= w * n
  {
    Arithmetic.Distribute(w, n, r);
    Arithmetic.Grow(w, n - r);
  }

  function Numbers(bytes: seq<byte>, w: nat, n: nat): (s: seq<nat>)
    requires w * n <= |bytes|
    ensures |s| == n
  {
    seq(n, r requires 0 <= r < n => NumberFits(w, r, n); NumberAt(bytes, w, r))
  }

  function Packed(numbers: seq<nat>, w: nat): (s: seq<byte>)
    ensures |s| == w * |numbers|
  {
    if numbers == [] then []
    else
      var n := |numbers| - 1;
      Arithmetic.Distribute(w, n, 1);
      Packed(numbers[..n], w) + LittleEndian(numbers[n], w)
  }

  lemma PackedStep(numbers: seq<nat>, w: nat)
    requires numbers != []
    ensures var n := |numbers| - 1;
            && Packed(numbers, w) == Packed(numbers[..n], w) + LittleEndian(numbers[n], w)
            && |Packed(numbers[..n], w)| == w * n && w * n + w == |Packed(numbers, w)|
  {
  }

  lemma PrefixSlice(a: seq<byte>, b: seq<byte>, i: nat, j: nat)
    requires i <= j <= |a|
    ensures (a + b)[i..j] == a[i..j]
  {
  }

  lemma SuffixSlice(a: seq<byte>, b: seq<byte>)
    ensures (a + b)[|a|..|a| + |b|] == b
  {
  }

  lemma {:induction false} PackedAt(numbers: seq<nat>, w: nat, r: nat)
    requires r < |numbers| && numbers[r] < Pow256(w)
    ensures w * r + w <= |Packed(numbers, w)|
    ensures NumberAt(Packed(numbers, w), w, r) == numbers[r]
  {
    hide Packed, FromLittleEndian, LittleEndian, Pow256;
    var n := |numbers| - 1;
    PackedStep(numbers, w);
    if r < n {
      NumberFits(w, r, n);
      PackedAt(numbers[..n], w, r);
      PrefixSlice(Packed(numbers[..n], w), LittleEndian(numbers[n], w), w * r, w * r + w);
    } else {
      SuffixSlice(Packed(numbers[..n], w), LittleEndian(numbers[n], w));
      LittleEndianFits(numbers[n], w);
    }
  }

  lemma UnpackedNumbers(numbers: seq<nat>, w: nat)
    requires forall r :: 0 <= r < |numbers| ==> numbers[r] < Pow256(w)
    ensures Numbers(Packed(numbers, w), w, |numbers|) == numbers
  {
    hide Packed;
    var unpacked := Numbers(Packed(numbers, w), w, |numbers|);
    forall r | 0 <= r < |numbers|
      ensures unpacked[r] == numbers[r]
    {
      PackedAt(numbers, w, r);
    }
  }
}
