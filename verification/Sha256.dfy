/**
 The SHA-256 of section 6.2 of FIPS 180-4, written from the standard: the
 padding of section 5.1.1, the message schedule and the compression function
 of section 6.2.2, folded over the 64-byte blocks of the padded message.
 */
module Sha256Standard {
  // The digest is defined by bitwise operations, so its bytes are bit vectors.
  type octet = bv8
  type word = bv32

  const UINT64 := 0x1_0000_0000_0000_0000

  /** Eight words: an intermediate hash value, or the working variables of section 6.2.2. */
  datatype Words = Words(a: word, b: word, c: word, d: word, e: word, f: word, g: word, h: word)

  /** Section 5.3.3. */
  const INITIAL := Words(0x6a09e667, 0xbb67ae85, 0x3c6ef372, 0xa54ff53a,
                         0x510e527f, 0x9b05688c, 0x1f83d9ab, 0x5be0cd19)

  /** Section 4.2.2. */
  const ROUND_CONSTANTS: seq<word> :=
    [0x428a2f98, 0x71374491, 0xb5c0fbcf, 0xe9b5dba5, 0x3956c25b, 0x59f111f1, 0x923f82a4, 0xab1c5ed5] +
    [0xd807aa98, 0x12835b01, 0x243185be, 0x550c7dc3, 0x72be5d74, 0x80deb1fe, 0x9bdc06a7, 0xc19bf174] +
    [0xe49b69c1, 0xefbe4786, 0x0fc19dc6, 0x240ca1cc, 0x2de92c6f, 0x4a7484aa, 0x5cb0a9dc, 0x76f988da] +
    [0x983e5152, 0xa831c66d, 0xb00327c8, 0xbf597fc7, 0xc6e00bf3, 0xd5a79147, 0x06ca6351, 0x14292967] +
    [0x27b70a85, 0x2e1b2138, 0x4d2c6dfc, 0x53380d13, 0x650a7354, 0x766a0abb, 0x81c2c92e, 0x92722c85] +
    [0xa2bfe8a1, 0xa81a664b, 0xc24b8b70, 0xc76c51a3, 0xd192e819, 0xd6990624, 0xf40e3585, 0x106aa070] +
    [0x19a4c116, 0x1e376c08, 0x2748774c, 0x34b0bcb5, 0x391c0cb3, 0x4ed8aa4a, 0x5b9cca4f, 0x682e6ff3] +
    [0x748f82ee, 0x78a5636f, 0x84c87814, 0x8cc70208, 0x90befffa, 0xa4506ceb, 0xbef9a3f7, 0xc67178f2]

  /** Addition modulo 2^32, section 3.2. */
  function Plus(x: word, y: word): word { x + y }

  // Section 4.1.2.
  function RotR(x: word, n: bv6): word
    requires 0 < n < 32
  {
    (x >> n) | (x << (32 - n))
  }

  function Ch(x: word, y: word, z: word): word { (x & y) ^ (!x & z) }

  function Maj(x: word, y: word, z: word): word { (x & y) ^ (x & z) ^ (y & z) }

  function BigSigma0(x: word): word { RotR(x, 2) ^ RotR(x, 13) ^ RotR(x, 22) }

  function BigSigma1(x: word): word { RotR(x, 6) ^ RotR(x, 11) ^ RotR(x, 25) }

  function SmallSigma0(x: word): word { RotR(x, 7) ^ RotR(x, 18) ^ (x >> 3) }

  function SmallSigma1(x: word): word { RotR(x, 17) ^ RotR(x, 19) ^ (x >> 10) }

  /** The big-endian word made of four bytes. */
  function WordOf(b0: octet, b1: octet, b2: octet, b3: octet): word {
    ((b0 as word) << 24) | ((b1 as word) << 16) | ((b2 as word) << 8) | (b3 as word)
  }

  /** W_t of section 6.2.2, step 1, for 16 <= t, from the words before it. */
  function NextWord(w: seq<word>): word
    requires 16 <= |w|
  {
    Plus(Plus(Plus(SmallSigma1(w[|w| - 2]), w[|w| - 7]), SmallSigma0(w[|w| - 15])), w[|w| - 16])
  }

  /** The first `t` words of the message schedule. */
  function Schedule(block: seq<octet>, t: nat): (w: seq<word>)
    requires |block| == 64
    ensures |w| == t
  {
    if t == 0 then []
    else
      var w := Schedule(block, t - 1);
      var i := t - 1;
      w + [if i < 16 then WordOf(block[4 * i], block[4 * i + 1], block[4 * i + 2], block[4 * i + 3])
           else NextWord(w)]
  }

  function T1(e: word, f: word, g: word, h: word, k: word, w: word): word {
    Plus(Plus(Plus(Plus(h, BigSigma1(e)), Ch(e, f, g)), k), w)
  }

  function T2(a: word, b: word, c: word): word { Plus(BigSigma0(a), Maj(a, b, c)) }

  function Round(v: Words, k: word, w: word): Words {
    var t1, t2 := T1(v.e, v.f, v.g, v.h, k, w), T2(v.a, v.b, v.c);
    Words(Plus(t1, t2), v.a, v.b, v.c, Plus(v.d, t1), v.e, v.f, v.g)
  }

  /** The working variables after the first `t` rounds of step 3, for the schedule `w`. */
  function Rounds(v: Words, w: seq<word>, t: nat): Words
    requires t <= |w| <= 64
  {
    if t == 0 then v else Round(Rounds(v, w, t - 1), ROUND_CONSTANTS[t - 1], w[t - 1])
  }

  /** Step 4 of section 6.2.2. */
  function Add(s: Words, v: Words): Words {
    Words(Plus(s.a, v.a), Plus(s.b, v.b), Plus(s.c, v.c), Plus(s.d, v.d),
          Plus(s.e, v.e), Plus(s.f, v.f), Plus(s.g, v.g), Plus(s.h, v.h))
  }

  /** One application of section 6.2.2: the next intermediate hash value. */
  function Compress(s: Words, block: seq<octet>): Words
    requires |block| == 64
  {
    Add(s, Rounds(s, Schedule(block, |ROUND_CONSTANTS|), |ROUND_CONSTANTS|))
  }

  /** The intermediate hash value after all the blocks of `m`. */
  function Blocks(m: seq<octet>): Words
    requires |m| % 64 == 0
    decreases |m|
  {
    if m == [] then INITIAL else Compress(Blocks(m[..|m| - 64]), m[|m| - 64..])
  }

  lemma BlocksStep(m: seq<octet>, block: seq<octet>)
    requires |m| % 64 == 0 && |block| == 64
    ensures |m + block| % 64 == 0
    ensures Blocks(m + block) == Compress(Blocks(m), block)
  {
    hide Compress;
    var n := m + block;
    assert n[..|n| - 64] == m && n[|n| - 64..] == block;
  }

  function Zeros(n: nat): (s: seq<octet>)
    ensures |s| == n && forall i :: 0 <= i < n ==> s[i] == 0
  {
    seq(n, i => 0 as octet)
  }

  /** Byte `k` of `n`, counted from the least significant. */
  function LengthByte(n: nat, k: nat): octet
    decreases k, n
  {
    if k == 0 then (n % 256) as octet else LengthByte(n / 256, k - 1)
  }

  /** `n` as a 64-bit big-endian number. */
  function BigEndian64(n: nat): (s: seq<octet>)
    ensures |s| == 8
  {
    [LengthByte(n, 7), LengthByte(n, 6), LengthByte(n, 5), LengthByte(n, 4),
     LengthByte(n, 3), LengthByte(n, 2), LengthByte(n, 1), LengthByte(n, 0)]
  }

  /** The smallest number of zero bytes that section 5.1.1 allows after the 0x80 byte. */
  function ZeroCount(n: nat): (z: nat)
    ensures z < 64 && (n + 1 + z) % 64 == 56
  {
    (119 - n % 64) % 64
  }

  lemma WholeBlocks(n: nat)
    requires n % 64 == 56
    ensures (n + 8) % 64 == 0
  {
  }

  /**
   The padded message of section 5.1.1. The standard stops at 2^64 - 1 bits;
   a longer message carries its length modulo 2^64.
   */
  function Pad(m: seq<octet>): (p: seq<octet>)
    ensures |p| % 64 == 0
  {
    var length := BigEndian64((8 * |m|) % UINT64);
    var z := ZeroCount(|m|);
    WholeBlocks(|m| + 1 + z);
    m + [0x80] + Zeros(z) + length
  }

  /** Byte `i` of `w`, most significant first. */
  function ByteAt(w: word, i: nat): octet
    requires i < 4
    decreases 4 - i, w
  {
    if i == 3 then (w & 0xff) as octet else ByteAt(w >> 8, i + 1)
  }

  function WordBytes(w: word): (s: seq<octet>)
    ensures |s| == 4
  {
    [ByteAt(w, 0), ByteAt(w, 1), ByteAt(w, 2), ByteAt(w, 3)]
  }

  function DigestBytes(s: Words): (d: seq<octet>)
    ensures |d| == 32
  {
    WordBytes(s.a) + WordBytes(s.b) + WordBytes(s.c) + WordBytes(s.d) +
    WordBytes(s.e) + WordBytes(s.f) + WordBytes(s.g) + WordBytes(s.h)
  }

  /** The message digest of section 6.2. */
  function Digest(m: seq<octet>): (d: seq<octet>)
    ensures |d| == 32
  {
    DigestBytes(Blocks(Pad(m)))
  }
}
