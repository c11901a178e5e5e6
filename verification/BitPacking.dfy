/** Numbers of a few bits each, one behind the other in an array of bytes. */
module BitPacking {
  import opened Bytes
  import opened Bitmap
  import Arithmetic

  /** Bit `pos` of the bytes. */
  predicate BitAt(data: seq<byte>, pos: nat)
    requires pos < 8 * |data|
  {
    TestBit(data[pos / 8], pos % 8)
  }

  /** The number of the bits from `offset` on, least significant first. */
  function BitsOf(data: seq<byte>, offset: nat, bits: nat): nat
    requires offset + bits <= 8 * |data|
    decreases bits
  {
    if bits == 0 then 0 else (if BitAt(data, offset) then 1 else 0) + 2 * BitsOf(data, offset + 1, bits - 1)
  }

  lemma {:induction false} BitsOfTest(data: seq<byte>, offset: nat, bits: nat)
    requires offset + bits <= 8 * |data|
    ensures BitsOf(data, offset, bits) < PowerOfTwo(bits)
    ensures forall k: nat :: k < bits ==> (TestBit(BitsOf(data, offset, bits), k) <==> BitAt(data, offset + k))
    decreases bits
  {
    hide BitAt;
    if bits != 0 {
      BitsOfTest(data, offset + 1, bits - 1);
      var n, rest := BitsOf(data, offset, bits), BitsOf(data, offset + 1, bits - 1);
      forall k: nat | k < bits
        ensures TestBit(n, k) <==> BitAt(data, offset + k)
      {
        assert n / 2 == rest;
        assert k > 0 ==> (TestBit(n, k) <==> TestBit(rest, k - 1)) && offset + 1 + (k - 1) == offset + k;
      }
    }
  }

  /** The low bits of a number. */
  lemma {:induction false} LowBits(n: nat, bits: nat)
    ensures n % PowerOfTwo(bits) < PowerOfTwo(bits)
    ensures forall k: nat :: k < bits ==> (TestBit(n % PowerOfTwo(bits), k) <==> TestBit(n, k))
  {
    if bits != 0 {
      LowBits(n / 2, bits - 1);
      HalfOfRemainder(n, PowerOfTwo(bits - 1));
    }
  }

  lemma HalfOfRemainder(n: nat, p: nat)
    requires p > 0
    ensures n % (2 * p) == n % 2 + 2 * ((n / 2) % p)
    ensures (n % (2 * p)) / 2 == (n / 2) % p && (n % (2 * p)) % 2 == n % 2
  {
    var h := n / 2;
    var q, r := h / p, h % p;
    assert h == p * q + r && n == 2 * (p * q + r) + n % 2;
    Regrouped(p, q);
    Arithmetic.DivisionUnique(n, 2 * p, q, 2 * r + n % 2);
    HalfAndBit(r, n % 2);
  }

  lemma HalfAndBit(r: nat, bit: nat)
    requires bit < 2
    ensures (bit + 2 * r) / 2 == r && (bit + 2 * r) % 2 == bit
  {
  }

  lemma Regrouped(p: nat, q: nat)
    ensures 2 * (p * q) == (2 * p) * q
  {
  }

  /** `b & ~(1 << k)`, bit by bit. */
  function ClearBit(b: nat, k: nat): (r: nat)
    ensures r <= b
  {
    if k == 0 then b - b % 2 else b % 2 + 2 * ClearBit(b / 2, k - 1)
  }

  lemma {:induction false} ClearBitTest(b: nat, k: nat, j: nat)
    ensures TestBit(ClearBit(b, k), j) <==> j != k && TestBit(b, j)
  {
    if k == 0 {
      assert (b - b % 2) / 2 == b / 2;
    } else if j != 0 {
      ClearBitTest(b / 2, k - 1, j - 1);
      assert ClearBit(b, k) / 2 == ClearBit(b / 2, k - 1);
    }
  }

  /** The bits [offset, offset + n) are those of `value`, and all others are those of `before`. */
  ghost predicate Wrote(before: seq<byte>, after: seq<byte>, offset: nat, value: nat, n: nat) {
    && |before| == |after|
    && forall pos: nat :: pos < 8 * |after| ==>
         (BitAt(after, pos) <==> if offset <= pos < offset + n then TestBit(value, pos - offset) else BitAt(before, pos))
  }

  method WriteBits(data: array<byte>, offset: nat, value: nat, bits: nat)
    requires offset + bits <= 8 * data.Length
    modifies data
    ensures Wrote(old(data[..]), data[..], offset, value, bits)
  {
    hide TestBit, Wrote;
    NothingWritten(data[..], offset, value);
    for i := 0 to bits
      invariant Wrote(old(data[..]), data[..], offset, value, i)
    {
      var bit := offset + i;
      ghost var current := data[..];
      WriteBit(data, bit, TestBit(value, i));
      WroteMore(old(data[..]), current, data[..], offset, value, i);
    }
  }

  lemma NothingWritten(data: seq<byte>, offset: nat, value: nat)
    ensures Wrote(data, data, offset, value, 0)
  {
  }

  /** One bit is set or cleared. */
  method WriteBit(data: array<byte>, bit: nat, on: bool)
    requires bit < 8 * data.Length
    modifies data
    ensures forall pos: nat :: pos < 8 * data.Length ==>
              (BitAt(data[..], pos) <==> if pos == bit then on else old(BitAt(data[..], pos)))
  {
    hide TestBit, SetBit, ClearBit;
    EightBits();
    var at, k := bit / 8, bit % 8;
    ghost var before := data[..];
    if on {
      SetBitFits(data[at], k, 8);
      data[at] := SetBit(data[at], k);
    } else {
      data[at] := ClearBit(data[at], k);
    }
    forall pos: nat | pos < 8 * data.Length
      ensures BitAt(data[..], pos) <==> if pos == bit then on else BitAt(before, pos)
    {
      if pos / 8 == at {
        SetBitTest(before[at], k, pos % 8);
        ClearBitTest(before[at], k, pos % 8);
      }
    }
  }

  lemma WroteMore(before: seq<byte>, current: seq<byte>, after: seq<byte>, offset: nat, value: nat, i: nat)
    requires Wrote(before, current, offset, value, i) && |after| == |current| && offset + i < 8 * |after|
    requires forall pos: nat :: pos < 8 * |after| ==>
               (BitAt(after, pos) <==> if pos == offset + i then TestBit(value, i) else BitAt(current, pos))
    ensures Wrote(before, after, offset, value, i + 1)
  {
    hide TestBit, BitAt;
  }

  method ReadBits(data: seq<byte>, offset: nat, bits: nat) returns (value: nat)
    requires offset + bits <= 8 * |data|
    ensures value == BitsOf(data, offset, bits)
  {
    hide TestBit, SetBit, BitAt;
    value := 0;
    for i := 0 to bits
      invariant value < PowerOfTwo(i)
      invariant forall k: nat :: k < i ==> (TestBit(value, k) <==> BitAt(data, offset + k))
    {
      SmallNumber(value, i);
      assert PowerOfTwo(i + 1) == 2 * PowerOfTwo(i);
      if BitAt(data, offset + i) {
        SetBitFits(value, i, i + 1);
        forall k: nat
          ensures TestBit(SetBit(value, i), k) <==> k == i || TestBit(value, k)
        {
          SetBitTest(value, i, k);
        }
        value := SetBit(value, i);
      }
    }
    BitsOfTest(data, offset, bits);
    SameBits(value, BitsOf(data, offset, bits), bits);
  }

  lemma {:induction false} SmallNumber(n: nat, k: nat)
    requires n < PowerOfTwo(k)
    ensures !TestBit(n, k)
  {
    if k != 0 {
      SmallNumber(n / 2, k - 1);
    }
  }

  /** What is written is read back, as far as the bits reach. */
  lemma WrittenIsRead(before: seq<byte>, after: seq<byte>, offset: nat, value: nat, bits: nat)
    requires Wrote(before, after, offset, value, bits) && offset + bits <= 8 * |after|
    ensures BitsOf(after, offset, bits) == value % PowerOfTwo(bits)
  {
    hide TestBit, BitAt;
    BitsOfTest(after, offset, bits);
    LowBits(value, bits);
    forall k: nat | k < bits
      ensures TestBit(BitsOf(after, offset, bits), k) == TestBit(value % PowerOfTwo(bits), k)
    {
      assert BitAt(after, offset + k) <==> TestBit(value, k);
    }
    SameBits(BitsOf(after, offset, bits), value % PowerOfTwo(bits), bits);
  }

  /** A write elsewhere leaves a number alone. */
  lemma {:induction false} OtherNumbersStay(before: seq<byte>, after: seq<byte>, offset: nat, value: nat, n: nat,
                                           other: nat, bits: nat)
    requires Wrote(before, after, offset, value, n) && other + bits <= 8 * |after|
    requires other + bits <= offset || offset + n <= other
    ensures BitsOf(after, other, bits) == BitsOf(before, other, bits)
    decreases bits
  {
    hide TestBit, BitAt;
    if bits != 0 {
      OtherNumbersStay(before, after, offset, value, n, other + 1, bits - 1);
      assert BitAt(after, other) <==> BitAt(before, other);
    }
  }

  // ---------- The shortcuts for 4, 8 and 16 bits ----------

  lemma {:induction false} BitsOfSplit(data: seq<byte>, offset: nat, a: nat, b: nat)
    requires offset + a + b <= 8 * |data|
    ensures BitsOf(data, offset, a + b) == BitsOf(data, offset, a) + PowerOfTwo(a) * BitsOf(data, offset + a, b)
    decreases a
  {
    hide BitAt;
    if a == 0 {
      assert PowerOfTwo(0) == 1 && BitsOf(data, offset, 0) == 0;
    } else {
      var p, rest, low := PowerOfTwo(a - 1), BitsOf(data, offset + a, b), BitsOf(data, offset + 1, a - 1);
      BitsOfSplit(data, offset + 1, a - 1, b);
      assert offset + 1 + (a - 1) == offset + a;
      OneMoreBit(low, p, rest, if BitAt(data, offset) then 1 else 0);
    }
  }

  lemma OneMoreBit(low: nat, p: nat, rest: nat, bit: nat)
    ensures bit + 2 * (low + p * rest) == (bit + 2 * low) + (2 * p) * rest
  {
  }

  lemma BitOfByte(data: seq<byte>, i: nat, k: nat)
    requires i < |data| && k < 8
    ensures BitAt(data, 8 * i + k) <==> TestBit(data[i], k)
  {
    hide TestBit;
    assert (8 * i + k) / 8 == i && (8 * i + k) % 8 == k;
  }

  lemma WholeByte(data: seq<byte>, i: nat)
    requires i < |data|
    ensures BitsOf(data, 8 * i, 8) == data[i]
  {
    hide TestBit, BitAt, BitsOf;
    EightBits();
    BitsOfTest(data, 8 * i, 8);
    forall k: nat | k < 8
      ensures TestBit(BitsOf(data, 8 * i, 8), k) == TestBit(data[i], k)
    {
      BitOfByte(data, i, k);
    }
    SameBits(BitsOf(data, 8 * i, 8), data[i], 8);
  }

  /** ReadBitpackValueFast, for the widths that have a shortcut. */
  function ReadFast(data: seq<byte>, index: nat, bits: nat): nat
    requires bits in {4, 8, 16} && (index + 1) * bits <= 8 * |data|
  {
    if bits == 4 then Nibble(data[index / 2], index % 2)
    else if bits == 8 then data[index]
    else TwoBytes(data[2 * index], data[2 * index + 1])
  }

  function Nibble(b: byte, half: nat): nat { if half == 1 then b / 16 else b % 16 }

  function TwoBytes(low: byte, high: byte): nat { low + 256 * high }

  lemma NibbleAgrees(data: seq<byte>, index: nat)
    requires (index + 1) * 4 <= 8 * |data|
    ensures Nibble(data[index / 2], index % 2) == BitsOf(data, index * 4, 4)
  {
    hide BitsOf, BitAt;
    var i := index / 2;
    WholeByte(data, i);
    BitsOfSplit(data, 8 * i, 4, 4);
    BitsOfTest(data, 8 * i, 4);
    assert PowerOfTwo(4) == 16;
    HalvesOfByte(BitsOf(data, 8 * i, 4), BitsOf(data, 8 * i + 4, 4));
    assert index * 4 == 8 * i + 4 * (index % 2);
  }

  lemma HalvesOfByte(low: nat, high: nat)
    requires low < 16
    ensures (low + 16 * high) % 16 == low && (low + 16 * high) / 16 == high
  {
  }

  /** The shortcuts read what reading bit by bit reads. */
  lemma ReadFastAgrees(data: seq<byte>, index: nat, bits: nat)
    requires bits in {4, 8, 16} && (index + 1) * bits <= 8 * |data|
    ensures ReadFast(data, index, bits) == BitsOf(data, index * bits, bits)
  {
    hide BitsOf, BitAt, Nibble;
    if bits == 4 {
      NibbleAgrees(data, index);
    } else if bits == 8 {
      WholeByte(data, index);
    } else {
      EightBits();
      WholeByte(data, 2 * index);
      WholeByte(data, 2 * index + 1);
      BitsOfSplit(data, 16 * index, 8, 8);
    }
  }
}
