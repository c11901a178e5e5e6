/**
 Bytes, fixed-width unsigned integers as byte strings, and the bit-packed
 validity bitmap that the client and the server each build by hand.
 */
module Bytes {
  import Arithmetic

  type byte = x: int | 0 <= x < 0x100

  function Pow256(k: nat): (p: nat)
    ensures p > 0
  {
    if k == 0 then 1 else 256 * Pow256(k - 1)
  }

  /** The low `k` bytes of `n`, least significant first. */
  function LittleEndian(n: nat, k: nat): (s: seq<byte>)
    ensures |s| == k
  {
    if k == 0 then [] else [n % 256] + LittleEndian(n / 256, k - 1)
  }

  /** The number whose little-endian digits in base 256 are `s`. */
  function FromLittleEndian(s: seq<byte>): (n: nat)
    ensures n < Pow256(|s|)
  {
    if s == [] then 0 else s[0] + 256 * FromLittleEndian(s[1..])
  }

  lemma {:induction false} LittleEndianInverse(n: nat, k: nat)
    ensures FromLittleEndian(LittleEndian(n, k)) == n % Pow256(k)
  {
    if k != 0 {
      assert LittleEndian(n, k)[1..] == LittleEndian(n / 256, k - 1);
      LittleEndianInverse(n / 256, k - 1);
      Arithmetic.SplitModulus(n, Pow256(k - 1));
    }
  }

  /** The least significant byte comes first. */
  lemma {:induction false} LittleEndianAt(n: nat, k: nat, i: nat)
    requires i < k
    ensures LittleEndian(n, k)[i] == (n / Pow256(i)) % 256
  {
    if i != 0 {
      LittleEndianAt(n / 256, k - 1, i - 1);
      Arithmetic.QuotientTwice(n, 256, Pow256(i - 1));
    }
  }

  lemma LittleEndianFits(n: nat, k: nat)
    requires n < Pow256(k)
    ensures FromLittleEndian(LittleEndian(n, k)) == n
  {
    LittleEndianInverse(n, k);
    Arithmetic.SmallModulus(n, Pow256(k));
  }
}
