/** The bit-packed validity bitmap that the client and the server each pack and unpack by hand. */
module Bitmap {
  import opened Bytes
  import Arithmetic

  function PowerOfTwo(k: nat): (p: nat)
    ensures p > 0
  {
    if k == 0 then 1 else 2 * PowerOfTwo(k - 1)
  }

  /** `(b >> k) & 1`. */
  predicate TestBit(b: nat, k: nat) {
    if k == 0 then b % 2 == 1 else TestBit(b / 2, k - 1)
  }

  /** `b | (1 << k)`, bit by bit. */
  function SetBit(b: nat, k: nat): nat {
    if k == 0 then (if b % 2 == 1 then b else b + 1) else b % 2 + 2 * SetBit(b / 2, k - 1)
  }

  /** Bit 0 is the least significant one. */
  lemma {:induction false} TestBitExactly(b: nat, k: nat)
    ensures TestBit(b, k) <==> (b / PowerOfTwo(k)) % 2 == 1
  {
    if k != 0 {
      TestBitExactly(b / 2, k - 1);
      Arithmetic.QuotientTwice(b, 2, PowerOfTwo(k - 1));
    }
  }

  lemma {:induction false} SetBitTest(b: nat, k: nat, j: nat)
    ensures TestBit(SetBit(b, k), j) <==> j == k || TestBit(b, j)
  {
    if k != 0 && j != 0 {
      SetBitTest(b / 2, k - 1, j - 1);
      assert SetBit(b, k) / 2 == SetBit(b / 2, k - 1);
    }
  }

  lemma Doubled(s: nat, p: nat, r: nat)
    requires s < p && r < 2
    ensures r + 2 * s < 2 * p
  {
  }

  lemma {:induction false} SetBitFits(b: nat, k: nat, n: nat)
    requires b < PowerOfTwo(n) && k < n
    ensures SetBit(b, k) < PowerOfTwo(n)
  {
    var half, rest := PowerOfTwo(n - 1), b / 2;
    assert PowerOfTwo(n) == 2 * half && rest < half;
    if k == 0 {
      assert b % 2 == 0 ==> b + 1 == 2 * rest + 1;
    } else {
      SetBitFits(rest, k - 1, n - 1);
      Doubled(SetBit(rest, k - 1), half, b % 2);
    }
  }

  lemma {:induction false} SameBits(a: nat, b: nat, n: nat)
    requires a < PowerOfTwo(n) && b < PowerOfTwo(n)
    requires forall k: nat :: k < n ==> TestBit(a, k) == TestBit(b, k)
    ensures a == b
  {
    if n != 0 {
      forall k: nat | k < n - 1
        ensures TestBit(a / 2, k) == TestBit(b / 2, k)
      {
        assert TestBit(a, k + 1) == TestBit(b, k + 1);
      }
      SameBits(a / 2, b / 2, n - 1);
      assert TestBit(a, 0) == TestBit(b, 0);
    }
  }

  lemma {:induction false} NoBits(k: nat)
    ensures !TestBit(0, k)
  {
    if k != 0 {
      NoBits(k - 1);
    }
  }

  lemma EightBits()
    ensures PowerOfTwo(8) == 256
  {
    assert PowerOfTwo(4) == 16;
  }

  function BitmapSize(n: nat): nat { (n + 7) / 8 }

  /** `bitmap` holds the `n` bits `bits`, bit `i` in byte `i / 8`, and zeros after them. */
  predicate Encodes(bitmap: seq<byte>, bits: seq<bool>) {
    && |bitmap| == BitmapSize(|bits|)
    && forall i :: 0 <= i < 8 * |bitmap| ==> (TestBit(bitmap[i / 8], i % 8) <==> i < |bits| && bits[i])
  }

  /** There is one such bitmap. */
  lemma EncodesUnique(a: seq<byte>, b: seq<byte>, bits: seq<bool>)
    requires Encodes(a, bits) && Encodes(b, bits)
    ensures a == b
  {
    hide TestBit;
    EightBits();
    forall j | 0 <= j < |a|
      ensures a[j] == b[j]
    {
      forall k: nat | k < 8
        ensures TestBit(a[j], k) == TestBit(b[j], k)
      {
        var i := 8 * j + k;
        assert i / 8 == j && i % 8 == k;
      }
      SameBits(a[j], b[j], 8);
    }
  }

  /** The server's pack_validity and the client's _pack_validity. */
  method Pack(bits: seq<bool>) returns (bitmap: seq<byte>)
    ensures Encodes(bitmap, bits)
  {
    hide TestBit, SetBit;
    bitmap := seq(BitmapSize(|bits|), i => 0);
    forall k: nat
      ensures !TestBit(0, k)
    {
      NoBits(k);
    }
    for i := 0 to |bits|
      invariant |bitmap| == BitmapSize(|bits|)
      invariant forall j :: 0 <= j < 8 * |bitmap| ==> (TestBit(bitmap[j / 8], j % 8) <==> j < i && bits[j])
    {
      if bits[i] {
        bitmap := PackOne(bitmap, bits, i);
      }
    }
  }

  /** `bitmap[i / 8] |= 1 << (i % 8)`. */
  method PackOne(bitmap: seq<byte>, ghost bits: seq<bool>, i: nat) returns (r: seq<byte>)
    requires |bitmap| == BitmapSize(|bits|) && i < |bits| && bits[i]
    requires forall j :: 0 <= j < 8 * |bitmap| ==> (TestBit(bitmap[j / 8], j % 8) <==> j < i && bits[j])
    ensures |r| == |bitmap|
    ensures forall j :: 0 <= j < 8 * |r| ==> (TestBit(r[j / 8], j % 8) <==> j < i + 1 && bits[j])
  {
    hide TestBit, SetBit;
    EightBits();
    SetBitFits(bitmap[i / 8], i % 8, 8);
    r := bitmap[i / 8 := SetBit(bitmap[i / 8], i % 8)];
    forall j | 0 <= j < 8 * |r|
      ensures TestBit(r[j / 8], j % 8) <==> j < i + 1 && bits[j]
    {
      SetBitTest(bitmap[i / 8], i % 8, j % 8);
      if j / 8 == i / 8 && j % 8 == i % 8 {
        assert j == i;
      }
    }
  }

  /** The loops that read `n` bits back. */
  method Unpack(bitmap: seq<byte>, n: nat) returns (bits: seq<bool>)
    requires |bitmap| == BitmapSize(n)
    ensures |bits| == n && forall i :: 0 <= i < n ==> (bits[i] <==> TestBit(bitmap[i / 8], i % 8))
  {
    bits := [];
    for i := 0 to n
      invariant |bits| == i && forall j :: 0 <= j < i ==> (bits[j] <==> TestBit(bitmap[j / 8], j % 8))
    {
      bits := bits + [TestBit(bitmap[i / 8], i % 8)];
    }
  }
}
