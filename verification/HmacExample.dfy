/**
 The standard's HMAC-SHA-256 evaluated on test case 2 of section 4.3 of RFC
 4231, whose key is "Jefe": the schedules and rounds of four blocks, word by
 word.
 */
module HmacExample {
  import opened Sha256Standard
  import opened Sha256Example
  import opened HmacStandard

  /** "Jefe" */
  const KEY: seq<octet> := [0x4a, 0x65, 0x66, 0x65]

  /** "what do ya want for nothing?" */
  const TEXT: seq<octet> :=
    [0x77, 0x68, 0x61, 0x74, 0x20, 0x64, 0x6f, 0x20] +
    [0x79, 0x61, 0x20, 0x77, 0x61, 0x6e, 0x74, 0x20] +
    [0x66, 0x6f, 0x72, 0x20, 0x6e, 0x6f, 0x74, 0x68] +
    [0x69, 0x6e, 0x67, 0x3f]

  /** The code that the RFC gives. */
  const CODE: seq<octet> :=
    [0x5b, 0xdc, 0xc1, 0x46, 0xbf, 0x60, 0x75, 0x4e] +
    [0x6a, 0x04, 0x24, 0x26, 0x08, 0x95, 0x75, 0xc7] +
    [0x5a, 0x00, 0x3f, 0x08, 0x9d, 0x27, 0x39, 0x83] +
    [0x9d, 0xec, 0x58, 0xb9, 0x64, 0xec, 0x38, 0x43]

  /** The hash values after the first and the second block of the inner hash. */
  const INNER_MIDDLE := Words(0x655da7fa, 0xcc434b37, 0x5a1cd5cb, 0x0692ee0e,
                              0xa47a23d3, 0x4c3af449, 0xdba21ae2, 0x78c7500c)

  const INNER := Words(0xa2e48586, 0x3d27f9d8, 0x64ac8d80, 0x2432a1ed,
                       0x477d8c4c, 0x6f349d16, 0xd4e7e917, 0xc629cad7)

  /** The same for the outer hash. */
  const OUTER_MIDDLE := Words(0x0eafe3d5, 0x13412e6c, 0x6a6a2feb, 0x2d375acc,
                              0x51a4fd47, 0x6db095e8, 0x23bfa18a, 0x52f141d5)

  const OUTER := Words(0x5bdcc146, 0xbf60754e, 0x6a042426, 0x089575c7,
                       0x5a003f08, 0x9d273983, 0x9dec58b9, 0x64ec3843)

  function Bytes(x: octet, n: nat): (s: seq<octet>)
    ensures |s| == n && forall i :: 0 <= i < n ==> s[i] == x
  {
    seq(n, i => x)
  }

  // The four blocks.

  /** The key under the inner pad. */
  function InnerKey(): (b: seq<octet>)
    ensures |b| == 64
  {
    [0x7c, 0x53, 0x50, 0x53] + Bytes(0x36, 60)
  }

  /** The text with the padding for 736 bits. */
  function InnerText(): (b: seq<octet>)
    ensures |b| == 64
  {
    TEXT + [0x80] + Zeros(33) + [0x02, 0xe0]
  }

  /** The key under the outer pad. */
  function OuterKey(): (b: seq<octet>)
    ensures |b| == 64
  {
    [0x16, 0x39, 0x3a, 0x39] + Bytes(0x5c, 60)
  }

  /** The inner digest with the padding for 768 bits. */
  function OuterText(): (b: seq<octet>)
    ensures |b| == 64
  {
    DigestBytes(INNER) + [0x80] + Zeros(29) + [0x03, 0x00]
  }

  // ---------- The first words of each block ----------

  /** The bytes of word `t` of a block. */
  predicate Quad(b: seq<octet>, t: nat, b0: octet, b1: octet, b2: octet, b3: octet) {
    && 4 * t + 4 <= |b|
    && b[4 * t] == b0 && b[4 * t + 1] == b1 && b[4 * t + 2] == b2 && b[4 * t + 3] == b3
  }

  lemma FirstWord(block: seq<octet>, w: seq<word>, t: nat, b0: octet, b1: octet, b2: octet, b3: octet)
    requires |block| == 64 && t < 16 && w == Schedule(block, 64)
    requires Quad(block, t, b0, b1, b2, b3)
    ensures At(w, t, WordOf(b0, b1, b2, b3))
  {
    hide WordOf, NextWord;
    ScheduleGrows(block, t + 1, 64);
    assert w[t] == w[..t + 1][t];
  }

  lemma OtherWords(block: seq<octet>, w: seq<word>, t: nat, n: nat, x: octet)
    requires |block| == 64 && t <= n <= 16 && w == Schedule(block, 64)
    requires forall k: nat :: t <= k < n ==> Quad(block, k, x, x, x, x)
    ensures forall k: nat :: t <= k < n ==> At(w, k, WordOf(x, x, x, x))
  {
    hide WordOf, Schedule, At, Quad;
    forall k: nat | t <= k < n
      ensures At(w, k, WordOf(x, x, x, x))
    {
      FirstWord(block, w, k, x, x, x, x);
    }
  }

  lemma InnerKeyWords0(w: seq<word>)
    requires w == Schedule(InnerKey(), 64)
    ensures At(w, 0, 0x7c535053) && At(w, 1, 0x36363636) && At(w, 2, 0x36363636) && At(w, 3, 0x36363636)
    ensures At(w, 4, 0x36363636) && At(w, 5, 0x36363636) && At(w, 6, 0x36363636) && At(w, 7, 0x36363636)
    ensures At(w, 8, 0x36363636) && At(w, 9, 0x36363636) && At(w, 10, 0x36363636) && At(w, 11, 0x36363636)
    ensures At(w, 12, 0x36363636) && At(w, 13, 0x36363636) && At(w, 14, 0x36363636) && At(w, 15, 0x36363636)
  {
    hide Schedule, At, WordOf, Quad, InnerKey;
    var b := InnerKey();
    InnerKeyWordsQuads0(b);
    InnerKeyWordsRest(b);
    FirstWord(b, w, 0, 0x7c, 0x53, 0x50, 0x53);
    OtherWords(b, w, 1, 16, 0x36);
    InnerKeyWordsValues();
  }

  lemma InnerKeyWordsQuads0(b: seq<octet>)
    requires b == InnerKey()
    ensures Quad(b, 0, 0x7c, 0x53, 0x50, 0x53)
  {
  }

  lemma InnerKeyWordsRest(b: seq<octet>)
    requires b == InnerKey()
    ensures forall k: nat :: 1 <= k < 16 ==> Quad(b, k, 0x36, 0x36, 0x36, 0x36)
  {
  }

  lemma InnerKeyWordsValues()
    ensures WordOf(0x7c, 0x53, 0x50, 0x53) == 0x7c535053 && WordOf(0x36, 0x36, 0x36, 0x36) == 0x36363636
  {
  }

  lemma InnerTextWords0(w: seq<word>)
    requires w == Schedule(InnerText(), 64)
    ensures At(w, 0, 0x77686174) && At(w, 1, 0x20646f20) && At(w, 2, 0x79612077) && At(w, 3, 0x616e7420)
    ensures At(w, 4, 0x666f7220) && At(w, 5, 0x6e6f7468) && At(w, 6, 0x696e673f) && At(w, 7, 0x80000000)
    ensures At(w, 8, 0x00000000) && At(w, 9, 0x00000000) && At(w, 10, 0x00000000) && At(w, 11, 0x00000000)
    ensures At(w, 12, 0x00000000) && At(w, 13, 0x00000000) && At(w, 14, 0x00000000) && At(w, 15, 0x000002e0)
  {
    hide Schedule, At, WordOf, Quad, InnerText;
    var b := InnerText();
    InnerTextWordsQuads0(b);
    InnerTextWordsQuads4(b);
    InnerTextWordsQuads8(b);
    InnerTextWordsRest(b);
    FirstWord(b, w, 0, 0x77, 0x68, 0x61, 0x74);
    FirstWord(b, w, 1, 0x20, 0x64, 0x6f, 0x20);
    FirstWord(b, w, 2, 0x79, 0x61, 0x20, 0x77);
    FirstWord(b, w, 3, 0x61, 0x6e, 0x74, 0x20);
    FirstWord(b, w, 4, 0x66, 0x6f, 0x72, 0x20);
    FirstWord(b, w, 5, 0x6e, 0x6f, 0x74, 0x68);
    FirstWord(b, w, 6, 0x69, 0x6e, 0x67, 0x3f);
    FirstWord(b, w, 7, 0x80, 0x00, 0x00, 0x00);
    OtherWords(b, w, 8, 15, 0x00);
    FirstWord(b, w, 15, 0x00, 0x00, 0x02, 0xe0);
    InnerTextWordsValues();
  }

  lemma InnerTextWordsQuads0(b: seq<octet>)
    requires b == InnerText()
    ensures Quad(b, 0, 0x77, 0x68, 0x61, 0x74) && Quad(b, 1, 0x20, 0x64, 0x6f, 0x20)
    ensures Quad(b, 2, 0x79, 0x61, 0x20, 0x77) && Quad(b, 3, 0x61, 0x6e, 0x74, 0x20)
  {
  }

  lemma InnerTextWordsQuads4(b: seq<octet>)
    requires b == InnerText()
    ensures Quad(b, 4, 0x66, 0x6f, 0x72, 0x20) && Quad(b, 5, 0x6e, 0x6f, 0x74, 0x68)
    ensures Quad(b, 6, 0x69, 0x6e, 0x67, 0x3f) && Quad(b, 7, 0x80, 0x00, 0x00, 0x00)
  {
  }

  lemma InnerTextWordsQuads8(b: seq<octet>)
    requires b == InnerText()
    ensures Quad(b, 15, 0x00, 0x00, 0x02, 0xe0)
  {
  }

  lemma InnerTextWordsRest(b: seq<octet>)
    requires b == InnerText()
    ensures forall k: nat :: 8 <= k < 15 ==> Quad(b, k, 0x00, 0x00, 0x00, 0x00)
  {
  }

  lemma InnerTextWordsValues()
    ensures WordOf(0x77, 0x68, 0x61, 0x74) == 0x77686174 && WordOf(0x20, 0x64, 0x6f, 0x20) == 0x20646f20
    ensures WordOf(0x79, 0x61, 0x20, 0x77) == 0x79612077 && WordOf(0x61, 0x6e, 0x74, 0x20) == 0x616e7420
    ensures WordOf(0x66, 0x6f, 0x72, 0x20) == 0x666f7220 && WordOf(0x6e, 0x6f, 0x74, 0x68) == 0x6e6f7468
    ensures WordOf(0x69, 0x6e, 0x67, 0x3f) == 0x696e673f && WordOf(0x80, 0x00, 0x00, 0x00) == 0x80000000
    ensures WordOf(0x00, 0x00, 0x00, 0x00) == 0x00000000 && WordOf(0x00, 0x00, 0x02, 0xe0) == 0x000002e0
  {
  }

  lemma OuterKeyWords0(w: seq<word>)
    requires w == Schedule(OuterKey(), 64)
    ensures At(w, 0, 0x16393a39) && At(w, 1, 0x5c5c5c5c) && At(w, 2, 0x5c5c5c5c) && At(w, 3, 0x5c5c5c5c)
    ensures At(w, 4, 0x5c5c5c5c) && At(w, 5, 0x5c5c5c5c) && At(w, 6, 0x5c5c5c5c) && At(w, 7, 0x5c5c5c5c)
    ensures At(w, 8, 0x5c5c5c5c) && At(w, 9, 0x5c5c5c5c) && At(w, 10, 0x5c5c5c5c) && At(w, 11, 0x5c5c5c5c)
    ensures At(w, 12, 0x5c5c5c5c) && At(w, 13, 0x5c5c5c5c) && At(w, 14, 0x5c5c5c5c) && At(w, 15, 0x5c5c5c5c)
  {
    hide Schedule, At, WordOf, Quad, OuterKey;
    var b := OuterKey();
    OuterKeyWordsQuads0(b);
    OuterKeyWordsRest(b);
    FirstWord(b, w, 0, 0x16, 0x39, 0x3a, 0x39);
    OtherWords(b, w, 1, 16, 0x5c);
    OuterKeyWordsValues();
  }

  lemma OuterKeyWordsQuads0(b: seq<octet>)
    requires b == OuterKey()
    ensures Quad(b, 0, 0x16, 0x39, 0x3a, 0x39)
  {
  }

  lemma OuterKeyWordsRest(b: seq<octet>)
    requires b == OuterKey()
    ensures forall k: nat :: 1 <= k < 16 ==> Quad(b, k, 0x5c, 0x5c, 0x5c, 0x5c)
  {
  }

  lemma OuterKeyWordsValues()
    ensures WordOf(0x16, 0x39, 0x3a, 0x39) == 0x16393a39 && WordOf(0x5c, 0x5c, 0x5c, 0x5c) == 0x5c5c5c5c
  {
  }

  lemma BytesOfWord(b0: octet, b1: octet, b2: octet, b3: octet)
    ensures WordBytes(WordOf(b0, b1, b2, b3)) == [b0, b1, b2, b3]
  {
    hide WordOf;
    var x := WordOf(b0, b1, b2, b3);
    ShiftedBytes(x);
    TopBytes(b0, b1, b2, b3);
    LowBytes(b0, b1, b2, b3);
  }

  lemma ShiftedBytes(x: word)
    ensures ByteAt(x, 0) == (((x >> 8) >> 8 >> 8) & 0xff) as octet
    ensures ByteAt(x, 1) == (((x >> 8) >> 8) & 0xff) as octet
    ensures ByteAt(x, 2) == ((x >> 8) & 0xff) as octet && ByteAt(x, 3) == (x & 0xff) as octet
  {
    assert ByteAt(x, 2) == ByteAt(x >> 8, 3);
    assert ByteAt(x, 1) == ByteAt(x >> 8, 2) == ByteAt((x >> 8) >> 8, 3);
    assert ByteAt(x, 0) == ByteAt(x >> 8, 1) == ByteAt((x >> 8) >> 8, 2) == ByteAt(((x >> 8) >> 8) >> 8, 3);
  }

  lemma TopBytes(b0: octet, b1: octet, b2: octet, b3: octet)
    ensures (((WordOf(b0, b1, b2, b3) >> 8) >> 8 >> 8) & 0xff) as octet == b0
    ensures (((WordOf(b0, b1, b2, b3) >> 8) >> 8) & 0xff) as octet == b1
  {
  }

  lemma LowBytes(b0: octet, b1: octet, b2: octet, b3: octet)
    ensures ((WordOf(b0, b1, b2, b3) >> 8) & 0xff) as octet == b2
    ensures (WordOf(b0, b1, b2, b3) & 0xff) as octet == b3
  {
  }

  /** The bytes of the inner digest. */
  lemma InnerBytes()
    ensures DigestBytes(INNER) ==
            [0xa2, 0xe4, 0x85, 0x86, 0x3d, 0x27, 0xf9, 0xd8] +
            [0x64, 0xac, 0x8d, 0x80, 0x24, 0x32, 0xa1, 0xed] +
            [0x47, 0x7d, 0x8c, 0x4c, 0x6f, 0x34, 0x9d, 0x16] +
            [0xd4, 0xe7, 0xe9, 0x17, 0xc6, 0x29, 0xca, 0xd7]
  {
    hide WordBytes, WordOf;
    BytesOfWord(0xa2, 0xe4, 0x85, 0x86);
    BytesOfWord(0x3d, 0x27, 0xf9, 0xd8);
    BytesOfWord(0x64, 0xac, 0x8d, 0x80);
    BytesOfWord(0x24, 0x32, 0xa1, 0xed);
    BytesOfWord(0x47, 0x7d, 0x8c, 0x4c);
    BytesOfWord(0x6f, 0x34, 0x9d, 0x16);
    BytesOfWord(0xd4, 0xe7, 0xe9, 0x17);
    BytesOfWord(0xc6, 0x29, 0xca, 0xd7);
    InnerBytesValues();
  }

  lemma InnerBytesValues()
    ensures WordOf(0xa2, 0xe4, 0x85, 0x86) == 0xa2e48586 && WordOf(0x3d, 0x27, 0xf9, 0xd8) == 0x3d27f9d8
    ensures WordOf(0x64, 0xac, 0x8d, 0x80) == 0x64ac8d80 && WordOf(0x24, 0x32, 0xa1, 0xed) == 0x2432a1ed
    ensures WordOf(0x47, 0x7d, 0x8c, 0x4c) == 0x477d8c4c && WordOf(0x6f, 0x34, 0x9d, 0x16) == 0x6f349d16
    ensures WordOf(0xd4, 0xe7, 0xe9, 0x17) == 0xd4e7e917 && WordOf(0xc6, 0x29, 0xca, 0xd7) == 0xc629cad7
  {
  }

  /** The bytes of the outer digest. */
  lemma OuterBytes()
    ensures DigestBytes(OUTER) == CODE
  {
    hide WordBytes, WordOf;
    BytesOfWord(0x5b, 0xdc, 0xc1, 0x46);
    BytesOfWord(0xbf, 0x60, 0x75, 0x4e);
    BytesOfWord(0x6a, 0x04, 0x24, 0x26);
    BytesOfWord(0x08, 0x95, 0x75, 0xc7);
    BytesOfWord(0x5a, 0x00, 0x3f, 0x08);
    BytesOfWord(0x9d, 0x27, 0x39, 0x83);
    BytesOfWord(0x9d, 0xec, 0x58, 0xb9);
    BytesOfWord(0x64, 0xec, 0x38, 0x43);
    OuterBytesValues();
  }

  lemma OuterBytesValues()
    ensures WordOf(0x5b, 0xdc, 0xc1, 0x46) == 0x5bdcc146 && WordOf(0xbf, 0x60, 0x75, 0x4e) == 0xbf60754e
    ensures WordOf(0x6a, 0x04, 0x24, 0x26) == 0x6a042426 && WordOf(0x08, 0x95, 0x75, 0xc7) == 0x089575c7
    ensures WordOf(0x5a, 0x00, 0x3f, 0x08) == 0x5a003f08 && WordOf(0x9d, 0x27, 0x39, 0x83) == 0x9d273983
    ensures WordOf(0x9d, 0xec, 0x58, 0xb9) == 0x9dec58b9 && WordOf(0x64, 0xec, 0x38, 0x43) == 0x64ec3843
  {
  }

  lemma OuterTextWords0(w: seq<word>)
    requires w == Schedule(OuterText(), 64)
    ensures At(w, 0, 0xa2e48586) && At(w, 1, 0x3d27f9d8) && At(w, 2, 0x64ac8d80) && At(w, 3, 0x2432a1ed)
    ensures At(w, 4, 0x477d8c4c) && At(w, 5, 0x6f349d16) && At(w, 6, 0xd4e7e917) && At(w, 7, 0xc629cad7)
    ensures At(w, 8, 0x80000000) && At(w, 9, 0x00000000) && At(w, 10, 0x00000000) && At(w, 11, 0x00000000)
    ensures At(w, 12, 0x00000000) && At(w, 13, 0x00000000) && At(w, 14, 0x00000000) && At(w, 15, 0x00000300)
  {
    hide Schedule, At, WordOf, Quad, OuterText;
    var b := OuterText();
    OuterTextWordsQuads0(b);
    OuterTextWordsQuads4(b);
    OuterTextWordsQuads8(b);
    OuterTextWordsRest(b);
    FirstWord(b, w, 0, 0xa2, 0xe4, 0x85, 0x86);
    FirstWord(b, w, 1, 0x3d, 0x27, 0xf9, 0xd8);
    FirstWord(b, w, 2, 0x64, 0xac, 0x8d, 0x80);
    FirstWord(b, w, 3, 0x24, 0x32, 0xa1, 0xed);
    FirstWord(b, w, 4, 0x47, 0x7d, 0x8c, 0x4c);
    FirstWord(b, w, 5, 0x6f, 0x34, 0x9d, 0x16);
    FirstWord(b, w, 6, 0xd4, 0xe7, 0xe9, 0x17);
    FirstWord(b, w, 7, 0xc6, 0x29, 0xca, 0xd7);
    FirstWord(b, w, 8, 0x80, 0x00, 0x00, 0x00);
    OtherWords(b, w, 9, 15, 0x00);
    FirstWord(b, w, 15, 0x00, 0x00, 0x03, 0x00);
    OuterTextWordsValues();
  }

  lemma OuterTextWordsQuads0(b: seq<octet>)
    requires b == OuterText()
    ensures Quad(b, 0, 0xa2, 0xe4, 0x85, 0x86) && Quad(b, 1, 0x3d, 0x27, 0xf9, 0xd8)
    ensures Quad(b, 2, 0x64, 0xac, 0x8d, 0x80) && Quad(b, 3, 0x24, 0x32, 0xa1, 0xed)
  {
    hide DigestBytes;
    InnerBytes();
    assert b[..32] == DigestBytes(INNER);
  }

  lemma OuterTextWordsQuads4(b: seq<octet>)
    requires b == OuterText()
    ensures Quad(b, 4, 0x47, 0x7d, 0x8c, 0x4c) && Quad(b, 5, 0x6f, 0x34, 0x9d, 0x16)
    ensures Quad(b, 6, 0xd4, 0xe7, 0xe9, 0x17) && Quad(b, 7, 0xc6, 0x29, 0xca, 0xd7)
  {
    hide DigestBytes;
    InnerBytes();
    assert b[..32] == DigestBytes(INNER);
  }

  lemma OuterTextWordsQuads8(b: seq<octet>)
    requires b == OuterText()
    ensures Quad(b, 8, 0x80, 0x00, 0x00, 0x00) && Quad(b, 15, 0x00, 0x00, 0x03, 0x00)
  {
    hide DigestBytes;
    InnerBytes();
    assert b[..32] == DigestBytes(INNER);
  }

  lemma OuterTextWordsRest(b: seq<octet>)
    requires b == OuterText()
    ensures forall k: nat :: 9 <= k < 15 ==> Quad(b, k, 0x00, 0x00, 0x00, 0x00)
  {
    hide DigestBytes;
  }

  lemma OuterTextWordsValues()
    ensures WordOf(0xa2, 0xe4, 0x85, 0x86) == 0xa2e48586 && WordOf(0x3d, 0x27, 0xf9, 0xd8) == 0x3d27f9d8
    ensures WordOf(0x64, 0xac, 0x8d, 0x80) == 0x64ac8d80 && WordOf(0x24, 0x32, 0xa1, 0xed) == 0x2432a1ed
    ensures WordOf(0x47, 0x7d, 0x8c, 0x4c) == 0x477d8c4c && WordOf(0x6f, 0x34, 0x9d, 0x16) == 0x6f349d16
    ensures WordOf(0xd4, 0xe7, 0xe9, 0x17) == 0xd4e7e917 && WordOf(0xc6, 0x29, 0xca, 0xd7) == 0xc629cad7
    ensures WordOf(0x80, 0x00, 0x00, 0x00) == 0x80000000 && WordOf(0x00, 0x00, 0x00, 0x00) == 0x00000000
    ensures WordOf(0x00, 0x00, 0x03, 0x00) == 0x00000300
  {
  }

  // ---------- The schedules ----------

  lemma InnerKeyWords16(w: seq<word>)
    requires w == Schedule(InnerKey(), 64)
    ensures At(w, 16, 0x7780fe00) && At(w, 17, 0x3163e3e3) && At(w, 18, 0xb47168a2) && At(w, 19, 0xe11539f8)
    ensures At(w, 20, 0xecfba47f) && At(w, 21, 0x8f8ebd79) && At(w, 22, 0xfa1ec89e) && At(w, 23, 0x1e0e70f6)
    ensures At(w, 24, 0x0c23673e) && At(w, 25, 0xc8311559) && At(w, 26, 0xddee66a1) && At(w, 27, 0xb28ed337)
    ensures At(w, 28, 0xac9fc9a9) && At(w, 29, 0xcb4db29d) && At(w, 30, 0x59369281) && At(w, 31, 0xe32830f3)
  {
    hide At, Schedule, InnerKey;
    InnerKeyWords0(w);
    FourWords(InnerKey(), w, 16, 0x7c535053, 0x36363636, 0x36363636, 0x36363636, 0x36363636, 0x36363636, 0x36363636,
              0x36363636, 0x36363636, 0x36363636, 0x36363636, 0x7780fe00, 0x3163e3e3, 0xb47168a2, 0xe11539f8);
    FourWords(InnerKey(), w, 20, 0x36363636, 0x36363636, 0x36363636, 0x36363636, 0x36363636, 0x36363636, 0x36363636,
              0x36363636, 0x7780fe00, 0xb47168a2, 0xe11539f8, 0xecfba47f, 0x8f8ebd79, 0xfa1ec89e, 0x1e0e70f6);
    FourWords(InnerKey(), w, 24, 0x36363636, 0x36363636, 0x36363636, 0x36363636, 0x36363636, 0x3163e3e3, 0xb47168a2,
              0xe11539f8, 0xecfba47f, 0xfa1ec89e, 0x1e0e70f6, 0x0c23673e, 0xc8311559, 0xddee66a1, 0xb28ed337);
    FourWords(InnerKey(), w, 28, 0x36363636, 0x36363636, 0x36363636, 0x36363636, 0x7780fe00, 0x8f8ebd79, 0xfa1ec89e,
              0x1e0e70f6, 0x0c23673e, 0xddee66a1, 0xb28ed337, 0xac9fc9a9, 0xcb4db29d, 0x59369281, 0xe32830f3);
  }

  lemma InnerKeyWords32(w: seq<word>)
    requires w == Schedule(InnerKey(), 64)
    ensures At(w, 32, 0x136f5555) && At(w, 33, 0x377ff55a) && At(w, 34, 0x4aa3e0f1) && At(w, 35, 0x9d19ff47)
    ensures At(w, 36, 0x926e254f) && At(w, 37, 0x39c2254f) && At(w, 38, 0x2731f000) && At(w, 39, 0x2bd17abc)
    ensures At(w, 40, 0xf96d6a27) && At(w, 41, 0x6686c278) && At(w, 42, 0x616aea0c) && At(w, 43, 0xb308442a)
    ensures At(w, 44, 0x5d1a34ff) && At(w, 45, 0xca7159c9) && At(w, 46, 0xd99ebf95) && At(w, 47, 0xe1a34c15)
  {
    hide At, Schedule, InnerKey;
    InnerKeyWords0(w);
    InnerKeyWords16(w);
    FourWords(InnerKey(), w, 32, 0x7780fe00, 0x3163e3e3, 0xb47168a2, 0xe11539f8, 0xecfba47f, 0xc8311559, 0xddee66a1,
              0xb28ed337, 0xac9fc9a9, 0x59369281, 0xe32830f3, 0x136f5555, 0x377ff55a, 0x4aa3e0f1, 0x9d19ff47);
    FourWords(InnerKey(), w, 36, 0xecfba47f, 0x8f8ebd79, 0xfa1ec89e, 0x1e0e70f6, 0x0c23673e, 0xcb4db29d, 0x59369281,
              0xe32830f3, 0x136f5555, 0x4aa3e0f1, 0x9d19ff47, 0x926e254f, 0x39c2254f, 0x2731f000, 0x2bd17abc);
    FourWords(InnerKey(), w, 40, 0x0c23673e, 0xc8311559, 0xddee66a1, 0xb28ed337, 0xac9fc9a9, 0x377ff55a, 0x4aa3e0f1,
              0x9d19ff47, 0x926e254f, 0x2731f000, 0x2bd17abc, 0xf96d6a27, 0x6686c278, 0x616aea0c, 0xb308442a);
    FourWords(InnerKey(), w, 44, 0xac9fc9a9, 0xcb4db29d, 0x59369281, 0xe32830f3, 0x136f5555, 0x39c2254f, 0x2731f000,
              0x2bd17abc, 0xf96d6a27, 0x616aea0c, 0xb308442a, 0x5d1a34ff, 0xca7159c9, 0xd99ebf95, 0xe1a34c15);
  }

  lemma InnerKeyWords48(w: seq<word>)
    requires w == Schedule(InnerKey(), 64)
    ensures At(w, 48, 0x51dbd4be) && At(w, 49, 0x7c986d13) && At(w, 50, 0x71d1a48e) && At(w, 51, 0x39a42882)
    ensures At(w, 52, 0x53c21066) && At(w, 53, 0x1d686bfc) && At(w, 54, 0x7682d688) && At(w, 55, 0xc08ab048)
    ensures At(w, 56, 0xf41238c8) && At(w, 57, 0x94e252cd) && At(w, 58, 0x485d2762) && At(w, 59, 0xe20b3ab9)
    ensures At(w, 60, 0x8e7ad67d) && At(w, 61, 0xda8d1cc5) && At(w, 62, 0xb0eeaf96) && At(w, 63, 0x8739d375)
  {
    hide At, Schedule, InnerKey;
    InnerKeyWords16(w);
    InnerKeyWords32(w);
    FourWords(InnerKey(), w, 48, 0x136f5555, 0x377ff55a, 0x4aa3e0f1, 0x9d19ff47, 0x926e254f, 0x6686c278, 0x616aea0c,
              0xb308442a, 0x5d1a34ff, 0xd99ebf95, 0xe1a34c15, 0x51dbd4be, 0x7c986d13, 0x71d1a48e, 0x39a42882);
    FourWords(InnerKey(), w, 52, 0x926e254f, 0x39c2254f, 0x2731f000, 0x2bd17abc, 0xf96d6a27, 0xca7159c9, 0xd99ebf95,
              0xe1a34c15, 0x51dbd4be, 0x71d1a48e, 0x39a42882, 0x53c21066, 0x1d686bfc, 0x7682d688, 0xc08ab048);
    FourWords(InnerKey(), w, 56, 0xf96d6a27, 0x6686c278, 0x616aea0c, 0xb308442a, 0x5d1a34ff, 0x7c986d13, 0x71d1a48e,
              0x39a42882, 0x53c21066, 0x7682d688, 0xc08ab048, 0xf41238c8, 0x94e252cd, 0x485d2762, 0xe20b3ab9);
    FourWords(InnerKey(), w, 60, 0x5d1a34ff, 0xca7159c9, 0xd99ebf95, 0xe1a34c15, 0x51dbd4be, 0x1d686bfc, 0x7682d688,
              0xc08ab048, 0xf41238c8, 0x485d2762, 0xe20b3ab9, 0x8e7ad67d, 0xda8d1cc5, 0xb0eeaf96, 0x8739d375);
  }

  lemma InnerTextWords16(w: seq<word>)
    requires w == Schedule(InnerText(), 64)
    ensures At(w, 16, 0xd6ecae97) && At(w, 17, 0xcb53a736) && At(w, 18, 0x0df4d52e) && At(w, 19, 0x99470585)
    ensures At(w, 20, 0x56ac588f) && At(w, 21, 0xbaf46d24) && At(w, 22, 0x21b274b4) && At(w, 23, 0x120525d6)
    ensures At(w, 24, 0x40189fa8) && At(w, 25, 0x444a1f39) && At(w, 26, 0xf57833ad) && At(w, 27, 0xa316f0ba)
    ensures At(w, 28, 0xda928743) && At(w, 29, 0xc8153509) && At(w, 30, 0xe63c58e9) && At(w, 31, 0x9b063401)
  {
    hide At, Schedule, InnerText;
    InnerTextWords0(w);
    FourWords(InnerText(), w, 16, 0x77686174, 0x20646f20, 0x79612077, 0x616e7420, 0x666f7220, 0x00000000, 0x00000000,
              0x00000000, 0x00000000, 0x00000000, 0x000002e0, 0xd6ecae97, 0xcb53a736, 0x0df4d52e, 0x99470585);
    FourWords(InnerText(), w, 20, 0x666f7220, 0x6e6f7468, 0x696e673f, 0x80000000, 0x00000000, 0x00000000, 0x00000000,
              0x000002e0, 0xd6ecae97, 0x0df4d52e, 0x99470585, 0x56ac588f, 0xbaf46d24, 0x21b274b4, 0x120525d6);
    FourWords(InnerText(), w, 24, 0x00000000, 0x00000000, 0x00000000, 0x00000000, 0x00000000, 0xcb53a736, 0x0df4d52e,
              0x99470585, 0x56ac588f, 0x21b274b4, 0x120525d6, 0x40189fa8, 0x444a1f39, 0xf57833ad, 0xa316f0ba);
    FourWords(InnerText(), w, 28, 0x00000000, 0x00000000, 0x00000000, 0x000002e0, 0xd6ecae97, 0xbaf46d24, 0x21b274b4,
              0x120525d6, 0x40189fa8, 0xf57833ad, 0xa316f0ba, 0xda928743, 0xc8153509, 0xe63c58e9, 0x9b063401);
  }

  lemma InnerTextWords32(w: seq<word>)
    requires w == Schedule(InnerText(), 64)
    ensures At(w, 32, 0x5fb8701b) && At(w, 33, 0x06610ac3) && At(w, 34, 0xc09ff909) && At(w, 35, 0x1a6d0e91)
    ensures At(w, 36, 0x67b9d8fd) && At(w, 37, 0xb9251d58) && At(w, 38, 0x7b42c482) && At(w, 39, 0x1e4fcbae)
    ensures At(w, 40, 0x7f18d3ae) && At(w, 41, 0x6b3e02aa) && At(w, 42, 0x60acd3cc) && At(w, 43, 0x09230471)
    ensures At(w, 44, 0xcf103ae0) && At(w, 45, 0xff3e7122) && At(w, 46, 0xbc028b24) && At(w, 47, 0x31f8a0a0)
  {
    hide At, Schedule, InnerText;
    InnerTextWords0(w);
    InnerTextWords16(w);
    FourWords(InnerText(), w, 32, 0xd6ecae97, 0xcb53a736, 0x0df4d52e, 0x99470585, 0x56ac588f, 0x444a1f39, 0xf57833ad,
              0xa316f0ba, 0xda928743, 0xe63c58e9, 0x9b063401, 0x5fb8701b, 0x06610ac3, 0xc09ff909, 0x1a6d0e91);
    FourWords(InnerText(), w, 36, 0x56ac588f, 0xbaf46d24, 0x21b274b4, 0x120525d6, 0x40189fa8, 0xc8153509, 0xe63c58e9,
              0x9b063401, 0x5fb8701b, 0xc09ff909, 0x1a6d0e91, 0x67b9d8fd, 0xb9251d58, 0x7b42c482, 0x1e4fcbae);
    FourWords(InnerText(), w, 40, 0x40189fa8, 0x444a1f39, 0xf57833ad, 0xa316f0ba, 0xda928743, 0x06610ac3, 0xc09ff909,
              0x1a6d0e91, 0x67b9d8fd, 0x7b42c482, 0x1e4fcbae, 0x7f18d3ae, 0x6b3e02aa, 0x60acd3cc, 0x09230471);
    FourWords(InnerText(), w, 44, 0xda928743, 0xc8153509, 0xe63c58e9, 0x9b063401, 0x5fb8701b, 0xb9251d58, 0x7b42c482,
              0x1e4fcbae, 0x7f18d3ae, 0x60acd3cc, 0x09230471, 0xcf103ae0, 0xff3e7122, 0xbc028b24, 0x31f8a0a0);
  }

  lemma InnerTextWords48(w: seq<word>)
    requires w == Schedule(InnerText(), 64)
    ensures At(w, 48, 0xa4405ebd) && At(w, 49, 0xa126f06e) && At(w, 50, 0x5140b18d) && At(w, 51, 0x0f9727bc)
    ensures At(w, 52, 0x96dc649b) && At(w, 53, 0xa7105035) && At(w, 54, 0x1955553f) && At(w, 55, 0x4cbc81fd)
    ensures At(w, 56, 0xf9992590) && At(w, 57, 0x2d78b115) && At(w, 58, 0x48b2660c) && At(w, 59, 0xc566eb38)
    ensures At(w, 60, 0xbc4719f4) && At(w, 61, 0xbd8f6578) && At(w, 62, 0xe71fceb9) && At(w, 63, 0x023dd359)
  {
    hide At, Schedule, InnerText;
    InnerTextWords16(w);
    InnerTextWords32(w);
    FourWords(InnerText(), w, 48, 0x5fb8701b, 0x06610ac3, 0xc09ff909, 0x1a6d0e91, 0x67b9d8fd, 0x6b3e02aa, 0x60acd3cc,
              0x09230471, 0xcf103ae0, 0xbc028b24, 0x31f8a0a0, 0xa4405ebd, 0xa126f06e, 0x5140b18d, 0x0f9727bc);
    FourWords(InnerText(), w, 52, 0x67b9d8fd, 0xb9251d58, 0x7b42c482, 0x1e4fcbae, 0x7f18d3ae, 0xff3e7122, 0xbc028b24,
              0x31f8a0a0, 0xa4405ebd, 0x5140b18d, 0x0f9727bc, 0x96dc649b, 0xa7105035, 0x1955553f, 0x4cbc81fd);
    FourWords(InnerText(), w, 56, 0x7f18d3ae, 0x6b3e02aa, 0x60acd3cc, 0x09230471, 0xcf103ae0, 0xa126f06e, 0x5140b18d,
              0x0f9727bc, 0x96dc649b, 0x1955553f, 0x4cbc81fd, 0xf9992590, 0x2d78b115, 0x48b2660c, 0xc566eb38);
    FourWords(InnerText(), w, 60, 0xcf103ae0, 0xff3e7122, 0xbc028b24, 0x31f8a0a0, 0xa4405ebd, 0xa7105035, 0x1955553f,
              0x4cbc81fd, 0xf9992590, 0x48b2660c, 0xc566eb38, 0xbc4719f4, 0xbd8f6578, 0xe71fceb9, 0x023dd359);
  }

  lemma OuterKeyWords16(w: seq<word>)
    requires w == Schedule(OuterKey(), 64)
    ensures At(w, 16, 0xbc6c6d6b) && At(w, 17, 0x028f8f8e) && At(w, 18, 0x18148f7c) && At(w, 19, 0x93133fd1)
    ensures At(w, 20, 0x33346707) && At(w, 21, 0x55131c00) && At(w, 22, 0x1c4c8fc1) && At(w, 23, 0xaa8252d7)
    ensures At(w, 24, 0xd92fce9a) && At(w, 25, 0x7bb09081) && At(w, 26, 0xb23c3c92) && At(w, 27, 0x8e036611)
    ensures At(w, 28, 0xef8b1cd6) && At(w, 29, 0xfcb68659) && At(w, 30, 0x98cd1c4a) && At(w, 31, 0xa514d1ce)
  {
    hide At, Schedule, OuterKey;
    OuterKeyWords0(w);
    FourWords(OuterKey(), w, 16, 0x16393a39, 0x5c5c5c5c, 0x5c5c5c5c, 0x5c5c5c5c, 0x5c5c5c5c, 0x5c5c5c5c, 0x5c5c5c5c,
              0x5c5c5c5c, 0x5c5c5c5c, 0x5c5c5c5c, 0x5c5c5c5c, 0xbc6c6d6b, 0x028f8f8e, 0x18148f7c, 0x93133fd1);
    FourWords(OuterKey(), w, 20, 0x5c5c5c5c, 0x5c5c5c5c, 0x5c5c5c5c, 0x5c5c5c5c, 0x5c5c5c5c, 0x5c5c5c5c, 0x5c5c5c5c,
              0x5c5c5c5c, 0xbc6c6d6b, 0x18148f7c, 0x93133fd1, 0x33346707, 0x55131c00, 0x1c4c8fc1, 0xaa8252d7);
    FourWords(OuterKey(), w, 24, 0x5c5c5c5c, 0x5c5c5c5c, 0x5c5c5c5c, 0x5c5c5c5c, 0x5c5c5c5c, 0x028f8f8e, 0x18148f7c,
              0x93133fd1, 0x33346707, 0x1c4c8fc1, 0xaa8252d7, 0xd92fce9a, 0x7bb09081, 0xb23c3c92, 0x8e036611);
    FourWords(OuterKey(), w, 28, 0x5c5c5c5c, 0x5c5c5c5c, 0x5c5c5c5c, 0x5c5c5c5c, 0xbc6c6d6b, 0x55131c00, 0x1c4c8fc1,
              0xaa8252d7, 0xd92fce9a, 0xb23c3c92, 0x8e036611, 0xef8b1cd6, 0xfcb68659, 0x98cd1c4a, 0xa514d1ce);
  }

  lemma OuterKeyWords32(w: seq<word>)
    requires w == Schedule(OuterKey(), 64)
    ensures At(w, 32, 0x655e9871) && At(w, 33, 0x80b14e30) && At(w, 34, 0xc3f7e470) && At(w, 35, 0x235e01a7)
    ensures At(w, 36, 0x0b79c2d8) && At(w, 37, 0x51112a82) && At(w, 38, 0xc947e091) && At(w, 39, 0x9d17222d)
    ensures At(w, 40, 0x8fead71a) && At(w, 41, 0xf1240136) && At(w, 42, 0xf2403484) && At(w, 43, 0x911ae6e0)
    ensures At(w, 44, 0x6b8481a7) && At(w, 45, 0xb6c12283) && At(w, 46, 0xc47d12e8) && At(w, 47, 0x32b8fe41)
  {
    hide At, Schedule, OuterKey;
    OuterKeyWords0(w);
    OuterKeyWords16(w);
    FourWords(OuterKey(), w, 32, 0xbc6c6d6b, 0x028f8f8e, 0x18148f7c, 0x93133fd1, 0x33346707, 0x7bb09081, 0xb23c3c92,
              0x8e036611, 0xef8b1cd6, 0x98cd1c4a, 0xa514d1ce, 0x655e9871, 0x80b14e30, 0xc3f7e470, 0x235e01a7);
    FourWords(OuterKey(), w, 36, 0x33346707, 0x55131c00, 0x1c4c8fc1, 0xaa8252d7, 0xd92fce9a, 0xfcb68659, 0x98cd1c4a,
              0xa514d1ce, 0x655e9871, 0xc3f7e470, 0x235e01a7, 0x0b79c2d8, 0x51112a82, 0xc947e091, 0x9d17222d);
    FourWords(OuterKey(), w, 40, 0xd92fce9a, 0x7bb09081, 0xb23c3c92, 0x8e036611, 0xef8b1cd6, 0x80b14e30, 0xc3f7e470,
              0x235e01a7, 0x0b79c2d8, 0xc947e091, 0x9d17222d, 0x8fead71a, 0xf1240136, 0xf2403484, 0x911ae6e0);
    FourWords(OuterKey(), w, 44, 0xef8b1cd6, 0xfcb68659, 0x98cd1c4a, 0xa514d1ce, 0x655e9871, 0x51112a82, 0xc947e091,
              0x9d17222d, 0x8fead71a, 0xf2403484, 0x911ae6e0, 0x6b8481a7, 0xb6c12283, 0xc47d12e8, 0x32b8fe41);
  }

  lemma OuterKeyWords48(w: seq<word>)
    requires w == Schedule(OuterKey(), 64)
    ensures At(w, 48, 0xa4366b12) && At(w, 49, 0xd4bab7a3) && At(w, 50, 0x18198b37) && At(w, 51, 0x5dc30ab5)
    ensures At(w, 52, 0xfb56e209) && At(w, 53, 0xbc47b487) && At(w, 54, 0x298fa38f) && At(w, 55, 0xff6df23c)
    ensures At(w, 56, 0xfded1548) && At(w, 57, 0x6b3181fd) && At(w, 58, 0xe2eea69e) && At(w, 59, 0xe11be15d)
    ensures At(w, 60, 0x08859856) && At(w, 61, 0xfacb39cf) && At(w, 62, 0xfeb10bf2) && At(w, 63, 0xd790cd34)
  {
    hide At, Schedule, OuterKey;
    OuterKeyWords16(w);
    OuterKeyWords32(w);
    FourWords(OuterKey(), w, 48, 0x655e9871, 0x80b14e30, 0xc3f7e470, 0x235e01a7, 0x0b79c2d8, 0xf1240136, 0xf2403484,
              0x911ae6e0, 0x6b8481a7, 0xc47d12e8, 0x32b8fe41, 0xa4366b12, 0xd4bab7a3, 0x18198b37, 0x5dc30ab5);
    FourWords(OuterKey(), w, 52, 0x0b79c2d8, 0x51112a82, 0xc947e091, 0x9d17222d, 0x8fead71a, 0xb6c12283, 0xc47d12e8,
              0x32b8fe41, 0xa4366b12, 0x18198b37, 0x5dc30ab5, 0xfb56e209, 0xbc47b487, 0x298fa38f, 0xff6df23c);
    FourWords(OuterKey(), w, 56, 0x8fead71a, 0xf1240136, 0xf2403484, 0x911ae6e0, 0x6b8481a7, 0xd4bab7a3, 0x18198b37,
              0x5dc30ab5, 0xfb56e209, 0x298fa38f, 0xff6df23c, 0xfded1548, 0x6b3181fd, 0xe2eea69e, 0xe11be15d);
    FourWords(OuterKey(), w, 60, 0x6b8481a7, 0xb6c12283, 0xc47d12e8, 0x32b8fe41, 0xa4366b12, 0xbc47b487, 0x298fa38f,
              0xff6df23c, 0xfded1548, 0xe2eea69e, 0xe11be15d, 0x08859856, 0xfacb39cf, 0xfeb10bf2, 0xd790cd34);
  }

  lemma OuterTextWords16(w: seq<word>)
    requires w == Schedule(OuterText(), 64)
    ensures At(w, 16, 0xec8d4507) && At(w, 17, 0x6e44cb58) && At(w, 18, 0xe57a2e78) && At(w, 19, 0x1481a913)
    ensures At(w, 20, 0xa0c51e3a) && At(w, 21, 0x20542d99) && At(w, 22, 0xc7d6bc99) && At(w, 23, 0x572ed109)
    ensures At(w, 24, 0x7832fa16) && At(w, 25, 0x982a793e) && At(w, 26, 0x36d9a8b4) && At(w, 27, 0x1463b3c8)
    ensures At(w, 28, 0x01955976) && At(w, 29, 0x776eccea) && At(w, 30, 0x5f84771d) && At(w, 31, 0x7b31f508)
  {
    hide At, Schedule, OuterText;
    OuterTextWords0(w);
    FourWords(OuterText(), w, 16, 0xa2e48586, 0x3d27f9d8, 0x64ac8d80, 0x2432a1ed, 0x477d8c4c, 0x00000000, 0x00000000,
              0x00000000, 0x00000000, 0x00000000, 0x00000300, 0xec8d4507, 0x6e44cb58, 0xe57a2e78, 0x1481a913);
    FourWords(OuterText(), w, 20, 0x477d8c4c, 0x6f349d16, 0xd4e7e917, 0xc629cad7, 0x80000000, 0x00000000, 0x00000000,
              0x00000300, 0xec8d4507, 0xe57a2e78, 0x1481a913, 0xa0c51e3a, 0x20542d99, 0xc7d6bc99, 0x572ed109);
    FourWords(OuterText(), w, 24, 0x80000000, 0x00000000, 0x00000000, 0x00000000, 0x00000000, 0x6e44cb58, 0xe57a2e78,
              0x1481a913, 0xa0c51e3a, 0xc7d6bc99, 0x572ed109, 0x7832fa16, 0x982a793e, 0x36d9a8b4, 0x1463b3c8);
    FourWords(OuterText(), w, 28, 0x00000000, 0x00000000, 0x00000000, 0x00000300, 0xec8d4507, 0x20542d99, 0xc7d6bc99,
              0x572ed109, 0x7832fa16, 0x36d9a8b4, 0x1463b3c8, 0x01955976, 0x776eccea, 0x5f84771d, 0x7b31f508);
  }

  lemma OuterTextWords32(w: seq<word>)
    requires w == Schedule(OuterText(), 64)
    ensures At(w, 32, 0xc9f4aee0) && At(w, 33, 0xd055fb5c) && At(w, 34, 0x0b79d67f) && At(w, 35, 0x7fe06bb1)
    ensures At(w, 36, 0x27530bc7) && At(w, 37, 0x3cdd17eb) && At(w, 38, 0xd3a5276a) && At(w, 39, 0xe79ef353)
    ensures At(w, 40, 0x70708e40) && At(w, 41, 0x503a442e) && At(w, 42, 0x8c04f280) && At(w, 43, 0x60a9ae13)
    ensures At(w, 44, 0x8edf61fe) && At(w, 45, 0x5a70bc6a) && At(w, 46, 0x06d8cf63) && At(w, 47, 0x2866cc9d)
  {
    hide At, Schedule, OuterText;
    OuterTextWords0(w);
    OuterTextWords16(w);
    FourWords(OuterText(), w, 32, 0xec8d4507, 0x6e44cb58, 0xe57a2e78, 0x1481a913, 0xa0c51e3a, 0x982a793e, 0x36d9a8b4,
              0x1463b3c8, 0x01955976, 0x5f84771d, 0x7b31f508, 0xc9f4aee0, 0xd055fb5c, 0x0b79d67f, 0x7fe06bb1);
    FourWords(OuterText(), w, 36, 0xa0c51e3a, 0x20542d99, 0xc7d6bc99, 0x572ed109, 0x7832fa16, 0x776eccea, 0x5f84771d,
              0x7b31f508, 0xc9f4aee0, 0x0b79d67f, 0x7fe06bb1, 0x27530bc7, 0x3cdd17eb, 0xd3a5276a, 0xe79ef353);
    FourWords(OuterText(), w, 40, 0x7832fa16, 0x982a793e, 0x36d9a8b4, 0x1463b3c8, 0x01955976, 0xd055fb5c, 0x0b79d67f,
              0x7fe06bb1, 0x27530bc7, 0xd3a5276a, 0xe79ef353, 0x70708e40, 0x503a442e, 0x8c04f280, 0x60a9ae13);
    FourWords(OuterText(), w, 44, 0x01955976, 0x776eccea, 0x5f84771d, 0x7b31f508, 0xc9f4aee0, 0x3cdd17eb, 0xd3a5276a,
              0xe79ef353, 0x70708e40, 0x8c04f280, 0x60a9ae13, 0x8edf61fe, 0x5a70bc6a, 0x06d8cf63, 0x2866cc9d);
  }

  lemma OuterTextWords48(w: seq<word>)
    requires w == Schedule(OuterText(), 64)
    ensures At(w, 48, 0x7608691a) && At(w, 49, 0xa7182225) && At(w, 50, 0x1dc70eca) && At(w, 51, 0x6c947dd1)
    ensures At(w, 52, 0x7c97dcae) && At(w, 53, 0x7b09005f) && At(w, 54, 0x19d1e2a0) && At(w, 55, 0xab60d9da)
    ensures At(w, 56, 0xac37d412) && At(w, 57, 0x1236e096) && At(w, 58, 0x4a8a3d6d) && At(w, 59, 0xbe58c2f1)
    ensures At(w, 60, 0x53d27161) && At(w, 61, 0xe25a87a5) && At(w, 62, 0xb53d7e5f) && At(w, 63, 0x0828fce9)
  {
    hide At, Schedule, OuterText;
    OuterTextWords16(w);
    OuterTextWords32(w);
    FourWords(OuterText(), w, 48, 0xc9f4aee0, 0xd055fb5c, 0x0b79d67f, 0x7fe06bb1, 0x27530bc7, 0x503a442e, 0x8c04f280,
              0x60a9ae13, 0x8edf61fe, 0x06d8cf63, 0x2866cc9d, 0x7608691a, 0xa7182225, 0x1dc70eca, 0x6c947dd1);
    FourWords(OuterText(), w, 52, 0x27530bc7, 0x3cdd17eb, 0xd3a5276a, 0xe79ef353, 0x70708e40, 0x5a70bc6a, 0x06d8cf63,
              0x2866cc9d, 0x7608691a, 0x1dc70eca, 0x6c947dd1, 0x7c97dcae, 0x7b09005f, 0x19d1e2a0, 0xab60d9da);
    FourWords(OuterText(), w, 56, 0x70708e40, 0x503a442e, 0x8c04f280, 0x60a9ae13, 0x8edf61fe, 0xa7182225, 0x1dc70eca,
              0x6c947dd1, 0x7c97dcae, 0x19d1e2a0, 0xab60d9da, 0xac37d412, 0x1236e096, 0x4a8a3d6d, 0xbe58c2f1);
    FourWords(OuterText(), w, 60, 0x8edf61fe, 0x5a70bc6a, 0x06d8cf63, 0x2866cc9d, 0x7608691a, 0x7b09005f, 0x19d1e2a0,
              0xab60d9da, 0xac37d412, 0x4a8a3d6d, 0xbe58c2f1, 0x53d27161, 0xe25a87a5, 0xb53d7e5f, 0x0828fce9);
  }

  // ---------- The rounds ----------

  lemma InnerKeyRounds0(w: seq<word>)
    requires w == Schedule(InnerKey(), 64)
    ensures After(INITIAL, w, 16,
                  Words(0xd8a297b3, 0x32f91b02, 0x0aae579f, 0x07f487ee,
                        0x40743133, 0x22d64e87, 0x4b6881fa, 0x426da4d5))
  {
    hide Key, At, After, Schedule, InnerKey;
    NoRounds(INITIAL, w);
    Keys0();
    InnerKeyWords0(w);
    FourRounds(INITIAL, w, 0,
               0x6a09e667, 0xbb67ae85, 0x3c6ef372, 0xa54ff53a, 0x510e527f, 0x9b05688c, 0x1f83d9ab, 0x5be0cd19,
               0x428a2f98, 0x7c535053, 0x785bd8a0, 0x151b32f5, 0x71374491, 0x36363636, 0x983307d2, 0xa5de5788,
               0xb5c0fbcf, 0x36363636, 0xe561c53c, 0xd42662d3, 0xe9b5dba5, 0x36363636, 0x8c549b2f, 0x663f1212);
    FourRounds(INITIAL, w, 4,
               0x8c549b2f, 0xe561c53c, 0x983307d2, 0x785bd8a0, 0x663f1212, 0xd42662d3, 0xa5de5788, 0x151b32f5,
               0x3956c25b, 0x36363636, 0x53632755, 0xd7477e59, 0x59f111f1, 0x36363636, 0x34561afc, 0x24389410,
               0x923f82a4, 0x36363636, 0x58778f6a, 0xa6e3644b, 0xab1c5ed5, 0x36363636, 0x16fcd1de, 0x1f67d48a);
    FourRounds(INITIAL, w, 8,
               0x16fcd1de, 0x58778f6a, 0x34561afc, 0x53632755, 0x1f67d48a, 0xa6e3644b, 0x24389410, 0xd7477e59,
               0xd807aa98, 0x36363636, 0x235471b0, 0x6a38013d, 0x12835b01, 0x36363636, 0xb0e25b7e, 0xfe30de3e,
               0x243185be, 0x36363636, 0xc29f7823, 0xe981ca81, 0x550c7dc3, 0x36363636, 0x1b918ad1, 0x435e9d84);
    FourRounds(INITIAL, w, 12,
               0x1b918ad1, 0xc29f7823, 0xb0e25b7e, 0x235471b0, 0x435e9d84, 0xe981ca81, 0xfe30de3e, 0x6a38013d,
               0x72be5d74, 0x36363636, 0x07f487ee, 0x426da4d5, 0x80deb1fe, 0x36363636, 0x0aae579f, 0x4b6881fa,
               0x9bdc06a7, 0x36363636, 0x32f91b02, 0x22d64e87, 0xc19bf174, 0x36363636, 0xd8a297b3, 0x40743133);
  }

  lemma InnerKeyRounds16(w: seq<word>)
    requires w == Schedule(InnerKey(), 64)
    ensures After(INITIAL, w, 32,
                  Words(0xeaa1ecb4, 0x078f5fb6, 0xf09b0708, 0xedf2ce47,
                        0xc6426440, 0x905c490a, 0x67e97303, 0xf09bbf76))
  {
    hide Key, At, After, Schedule, InnerKey;
    InnerKeyRounds0(w);
    Keys16();
    InnerKeyWords16(w);
    FourRounds(INITIAL, w, 16,
               0xd8a297b3, 0x32f91b02, 0x0aae579f, 0x07f487ee, 0x40743133, 0x22d64e87, 0x4b6881fa, 0x426da4d5,
               0xe49b69c1, 0x7780fe00, 0x57ea9c70, 0x834c5d31, 0xefbe4786, 0x3163e3e3, 0x0268f9a1, 0x5e22d8f7,
               0x0fc19dc6, 0xb47168a2, 0x3dbc498e, 0xef561db9, 0x240ca1cc, 0xe11539f8, 0xd9507501, 0x67d16b9d);
    FourRounds(INITIAL, w, 20,
               0xd9507501, 0x3dbc498e, 0x0268f9a1, 0x57ea9c70, 0x67d16b9d, 0xef561db9, 0x5e22d8f7, 0x834c5d31,
               0x2de92c6f, 0xecfba47f, 0xc5318371, 0x6414d5ba, 0x4a7484aa, 0x8f8ebd79, 0x062e40f6, 0x7e976b52,
               0x5cb0a9dc, 0xfa1ec89e, 0x17e2b319, 0x513641df, 0x76f988da, 0x1e0e70f6, 0xad9d4643, 0x27cec047);
    FourRounds(INITIAL, w, 24,
               0xad9d4643, 0x17e2b319, 0x062e40f6, 0xc5318371, 0x27cec047, 0x513641df, 0x7e976b52, 0x6414d5ba,
               0x983e5152, 0x0c23673e, 0x08bb510a, 0x19db5e5c, 0xa831c66d, 0xc8311559, 0x7c2a0dc2, 0x8d6241f3,
               0xb00327c8, 0xddee66a1, 0xd2451e37, 0x643e203e, 0xbf597fc7, 0xb28ed337, 0x0268fa1b, 0x46841870);
    FourRounds(INITIAL, w, 28,
               0x0268fa1b, 0xd2451e37, 0x7c2a0dc2, 0x08bb510a, 0x46841870, 0x643e203e, 0x8d6241f3, 0x19db5e5c,
               0xc6e00bf3, 0xac9fc9a9, 0xedf2ce47, 0xf09bbf76, 0xd5a79147, 0xcb4db29d, 0xf09b0708, 0x67e97303,
               0x06ca6351, 0x59369281, 0x078f5fb6, 0x905c490a, 0x14292967, 0xe32830f3, 0xeaa1ecb4, 0xc6426440);
  }

  lemma InnerKeyRounds32(w: seq<word>)
    requires w == Schedule(InnerKey(), 64)
    ensures After(INITIAL, w, 48,
                  Words(0x750ed7b4, 0x6531bcdc, 0xb803f3e1, 0x5cd1d6ed,
                        0xe2cdce6a, 0xa1815b66, 0xa7e30631, 0x13126373))
  {
    hide Key, At, After, Schedule, InnerKey;
    InnerKeyRounds16(w);
    Keys32();
    InnerKeyWords32(w);
    FourRounds(INITIAL, w, 32,
               0xeaa1ecb4, 0x078f5fb6, 0xf09b0708, 0xedf2ce47, 0xc6426440, 0x905c490a, 0x67e97303, 0xf09bbf76,
               0x27b70a85, 0x136f5555, 0x3328a14d, 0x65d22258, 0x2e1b2138, 0x377ff55a, 0x6d2e4564, 0x55f8d8de,
               0x4d2c6dfc, 0x4aa3e0f1, 0x83963ea4, 0x967f4f57, 0x53380d13, 0x9d19ff47, 0x68029891, 0xa23b5ecb);
    FourRounds(INITIAL, w, 36,
               0x68029891, 0x83963ea4, 0x6d2e4564, 0x3328a14d, 0xa23b5ecb, 0x967f4f57, 0x55f8d8de, 0x65d22258,
               0x650a7354, 0x926e254f, 0x1d8a1947, 0x52c2fa60, 0x766a0abb, 0x39c2254f, 0x67625ada, 0xa5cf1142,
               0x81c2c92e, 0x2731f000, 0x3b14694f, 0x8b47cae7, 0x92722c85, 0x2bd17abc, 0xa79b91d0, 0xfb81d2f6);
    FourRounds(INITIAL, w, 40,
               0xa79b91d0, 0x3b14694f, 0x67625ada, 0x1d8a1947, 0xfb81d2f6, 0x8b47cae7, 0xa5cf1142, 0x52c2fa60,
               0xa2bfe8a1, 0xf96d6a27, 0xb44f112a, 0xe1a23661, 0xa81a664b, 0x6686c278, 0x09f97f87, 0xa239fc34,
               0xc24b8b70, 0x616aea0c, 0x73144f72, 0x2c959b32, 0xc76c51a3, 0xb308442a, 0x232d24d1, 0xe30014cd);
    FourRounds(INITIAL, w, 44,
               0x232d24d1, 0x73144f72, 0x09f97f87, 0xb44f112a, 0xe30014cd, 0x2c959b32, 0xa239fc34, 0xe1a23661,
               0xd192e819, 0x5d1a34ff, 0x5cd1d6ed, 0x13126373, 0xd6990624, 0xca7159c9, 0xb803f3e1, 0xa7e30631,
               0xf40e3585, 0xd99ebf95, 0x6531bcdc, 0xa1815b66, 0x106aa070, 0xe1a34c15, 0x750ed7b4, 0xe2cdce6a);
  }

  lemma InnerKeyRounds48(w: seq<word>)
    requires w == Schedule(InnerKey(), 64)
    ensures After(INITIAL, w, 64,
                  Words(0xfb53c193, 0x10db9cb2, 0x1dade259, 0x6142f8d4,
                        0x536bd154, 0xb1358bbd, 0xbc1e4137, 0x1ce682f3))
  {
    hide Key, At, After, Schedule, InnerKey;
    InnerKeyRounds32(w);
    Keys48();
    InnerKeyWords48(w);
    FourRounds(INITIAL, w, 48,
               0x750ed7b4, 0x6531bcdc, 0xb803f3e1, 0x5cd1d6ed, 0xe2cdce6a, 0xa1815b66, 0xa7e30631, 0x13126373,
               0x19a4c116, 0x51dbd4be, 0x352963ee, 0x81387698, 0x1e376c08, 0x7c986d13, 0xbd49faae, 0xc86fad2f,
               0x2748774c, 0x71d1a48e, 0x9d2923ec, 0x6f83bf09, 0x34b0bcb5, 0x39a42882, 0x7875932a, 0x93b9f32a);
    FourRounds(INITIAL, w, 52,
               0x7875932a, 0x9d2923ec, 0xbd49faae, 0x352963ee, 0x93b9f32a, 0x6f83bf09, 0xc86fad2f, 0x81387698,
               0x391c0cb3, 0x53c21066, 0xfc2f1aae, 0xa2ecbc67, 0x4ed8aa4a, 0x1d686bfc, 0x3ac20327, 0x25c84e04,
               0x5b9cca4f, 0x7682d688, 0x80be9491, 0xc5fadb1d, 0x682e6ff3, 0xc08ab048, 0xc5a25619, 0x4677efca);
    FourRounds(INITIAL, w, 56,
               0xc5a25619, 0x80be9491, 0x3ac20327, 0xfc2f1aae, 0x4677efca, 0xc5fadb1d, 0x25c84e04, 0xa2ecbc67,
               0x748f82ee, 0xf41238c8, 0x26d12d1d, 0x595f5238, 0x78a5636f, 0x94e252cd, 0xecaa3749, 0x3cd11d02,
               0x84c87814, 0x485d2762, 0xfc2dd2ee, 0x2e916135, 0x8cc70208, 0xe20b3ab9, 0x79b8b244, 0xb37aa2eb);
    FourRounds(INITIAL, w, 60,
               0x79b8b244, 0xfc2dd2ee, 0xecaa3749, 0x26d12d1d, 0xb37aa2eb, 0x2e916135, 0x3cd11d02, 0x595f5238,
               0x90befffa, 0x8e7ad67d, 0x6142f8d4, 0x1ce682f3, 0xa4506ceb, 0xda8d1cc5, 0x1dade259, 0xbc1e4137,
               0xbef9a3f7, 0xb0eeaf96, 0x10db9cb2, 0xb1358bbd, 0xc67178f2, 0x8739d375, 0xfb53c193, 0x536bd154);
  }

  lemma InnerTextRounds0(w: seq<word>)
    requires w == Schedule(InnerText(), 64)
    ensures After(INNER_MIDDLE, w, 16,
                  Words(0xbf4e7f46, 0xd0e32bb8, 0xf5842695, 0x09eca57c,
                        0xda0d8141, 0x0000f140, 0x053ab6db, 0xb6e243b9))
  {
    hide Key, At, After, Schedule, InnerText;
    NoRounds(INNER_MIDDLE, w);
    Keys0();
    InnerTextWords0(w);
    FourRounds(INNER_MIDDLE, w, 0,
               0x655da7fa, 0xcc434b37, 0x5a1cd5cb, 0x0692ee0e, 0xa47a23d3, 0x4c3af449, 0xdba21ae2, 0x78c7500c,
               0x428a2f98, 0x77686174, 0xb8e21a13, 0xa2fb95a0, 0x71374491, 0x20646f20, 0x481dac7b, 0xff2a679c,
               0xb5c0fbcf, 0x79612077, 0x62f20e4d, 0xff6ae436, 0xe9b5dba5, 0x616e7420, 0x238af6c2, 0x3d07eed9);
    FourRounds(INNER_MIDDLE, w, 4,
               0x238af6c2, 0x62f20e4d, 0x481dac7b, 0xb8e21a13, 0x3d07eed9, 0xff6ae436, 0xff2a679c, 0xa2fb95a0,
               0x3956c25b, 0x666f7220, 0xf5d4dabb, 0x36f39d1a, 0x59f111f1, 0x6e6f7468, 0x567dcdf7, 0xbf0823c8,
               0x923f82a4, 0x696e673f, 0xd609bdc3, 0x740ccf53, 0xab1c5ed5, 0x80000000, 0x54c22a6c, 0x648372d6);
    FourRounds(INNER_MIDDLE, w, 8,
               0x54c22a6c, 0xd609bdc3, 0x567dcdf7, 0xf5d4dabb, 0x648372d6, 0x740ccf53, 0xbf0823c8, 0x36f39d1a,
               0xd807aa98, 0x00000000, 0xf630cd63, 0x46c05c5e, 0x12835b01, 0x00000000, 0x04bd02e2, 0x2f941670,
               0x243185be, 0x00000000, 0x5a575c57, 0x797c2276, 0x550c7dc3, 0x00000000, 0xd1f3d86b, 0x67225dae);
    FourRounds(INNER_MIDDLE, w, 12,
               0xd1f3d86b, 0x5a575c57, 0x04bd02e2, 0xf630cd63, 0x67225dae, 0x797c2276, 0x2f941670, 0x46c05c5e,
               0x72be5d74, 0x00000000, 0x09eca57c, 0xb6e243b9, 0x80deb1fe, 0x00000000, 0xf5842695, 0x053ab6db,
               0x9bdc06a7, 0x00000000, 0xd0e32bb8, 0x0000f140, 0xc19bf174, 0x000002e0, 0xbf4e7f46, 0xda0d8141);
  }

  lemma InnerTextRounds16(w: seq<word>)
    requires w == Schedule(InnerText(), 64)
    ensures After(INNER_MIDDLE, w, 32,
                  Words(0x3eebaf95, 0xa80d8d52, 0x578885a2, 0xfd6b63f2,
                        0x76edd9cf, 0x71d96c70, 0x9f3a120e, 0xb908e6ba))
  {
    hide Key, At, After, Schedule, InnerText;
    InnerTextRounds0(w);
    Keys16();
    InnerTextWords16(w);
    FourRounds(INNER_MIDDLE, w, 16,
               0xbf4e7f46, 0xd0e32bb8, 0xf5842695, 0x09eca57c, 0xda0d8141, 0x0000f140, 0x053ab6db, 0xb6e243b9,
               0xe49b69c1, 0xd6ecae97, 0x03129a36, 0xab1d90bf, 0xefbe4786, 0xcb53a736, 0x604a7248, 0xa76ff792,
               0x0fc19dc6, 0x0df4d52e, 0xeedaca00, 0xf8dabc32, 0x240ca1cc, 0x99470585, 0xbe87e7f9, 0x1ae1c552);
    FourRounds(INNER_MIDDLE, w, 20,
               0xbe87e7f9, 0xeedaca00, 0x604a7248, 0x03129a36, 0x1ae1c552, 0xf8dabc32, 0xa76ff792, 0xab1d90bf,
               0x2de92c6f, 0x56ac588f, 0xbf0b0bf2, 0x835ed8a5, 0x4a7484aa, 0xbaf46d24, 0xf06fcc32, 0xb5b58232,
               0x5cb0a9dc, 0x21b274b4, 0x79a0a5a9, 0x47aee404, 0x76f988da, 0x120525d6, 0x5b9a284d, 0x2f41410b);
    FourRounds(INNER_MIDDLE, w, 24,
               0x5b9a284d, 0x79a0a5a9, 0xf06fcc32, 0xbf0b0bf2, 0x2f41410b, 0x47aee404, 0xb5b58232, 0x835ed8a5,
               0x983e5152, 0x40189fa8, 0x96bb045f, 0x5fee007c, 0xa831c66d, 0x444a1f39, 0x4263f6b0, 0xabd69400,
               0xb00327c8, 0xf57833ad, 0xe45cf572, 0xe0824704, 0xbf597fc7, 0xa316f0ba, 0x2baf19c4, 0x5f777975);
    FourRounds(INNER_MIDDLE, w, 28,
               0x2baf19c4, 0xe45cf572, 0x4263f6b0, 0x96bb045f, 0x5f777975, 0xe0824704, 0xabd69400, 0x5fee007c,
               0xc6e00bf3, 0xda928743, 0xfd6b63f2, 0xb908e6ba, 0xd5a79147, 0xc8153509, 0x578885a2, 0x9f3a120e,
               0x06ca6351, 0xe63c58e9, 0xa80d8d52, 0x71d96c70, 0x14292967, 0x9b063401, 0x3eebaf95, 0x76edd9cf);
  }

  lemma InnerTextRounds32(w: seq<word>)
    requires w == Schedule(InnerText(), 64)
    ensures After(INNER_MIDDLE, w, 48,
                  Words(0x18eae95d, 0xc30b4900, 0xb5486ab0, 0x9f6132f2,
                        0x68e92552, 0x2580f283, 0x521dd93c, 0xb871c7e5))
  {
    hide Key, At, After, Schedule, InnerText;
    InnerTextRounds16(w);
    Keys32();
    InnerTextWords32(w);
    FourRounds(INNER_MIDDLE, w, 32,
               0x3eebaf95, 0xa80d8d52, 0x578885a2, 0xfd6b63f2, 0x76edd9cf, 0x71d96c70, 0x9f3a120e, 0xb908e6ba,
               0x27b70a85, 0x5fb8701b, 0x89640ed6, 0xaa989cf3, 0x2e1b2138, 0x06610ac3, 0x51552207, 0xbb9a0523,
               0x4d2c6dfc, 0xc09ff909, 0x008c48f1, 0xfe4cc83f, 0x53380d13, 0x1a6d0e91, 0xb55acccf, 0xbc799f31);
    FourRounds(INNER_MIDDLE, w, 36,
               0xb55acccf, 0x008c48f1, 0x51552207, 0x89640ed6, 0xbc799f31, 0xfe4cc83f, 0xbb9a0523, 0xaa989cf3,
               0x650a7354, 0x67b9d8fd, 0x44a5d2ff, 0xdc9571de, 0x766a0abb, 0xb9251d58, 0x89b963f0, 0x04e91075,
               0x81c2c92e, 0x7b42c482, 0xc43e9334, 0x66ab4215, 0x92722c85, 0x1e4fcbae, 0x64336633, 0x01eb08e5);
    FourRounds(INNER_MIDDLE, w, 40,
               0x64336633, 0xc43e9334, 0x89b963f0, 0x44a5d2ff, 0x01eb08e5, 0x66ab4215, 0x04e91075, 0xdc9571de,
               0xa2bfe8a1, 0x7f18d3ae, 0x6987babb, 0xc4e2f503, 0xa81a664b, 0x6b3e02aa, 0x8ec6134f, 0xa2f775d7,
               0xc24b8b70, 0x60acd3cc, 0x795b866f, 0x6f921a90, 0xc76c51a3, 0x09230471, 0x3d286fbb, 0xb45facdd);
    FourRounds(INNER_MIDDLE, w, 44,
               0x3d286fbb, 0x795b866f, 0x8ec6134f, 0x6987babb, 0xb45facdd, 0x6f921a90, 0xa2f775d7, 0xc4e2f503,
               0xd192e819, 0xcf103ae0, 0x9f6132f2, 0xb871c7e5, 0xd6990624, 0xff3e7122, 0xb5486ab0, 0x521dd93c,
               0xf40e3585, 0xbc028b24, 0xc30b4900, 0x2580f283, 0x106aa070, 0x31f8a0a0, 0x18eae95d, 0x68e92552);
  }

  lemma InnerTextRounds48(w: seq<word>)
    requires w == Schedule(InnerText(), 64)
    ensures After(INNER_MIDDLE, w, 64,
                  Words(0x3d86dd8c, 0x70e4aea1, 0x0a8fb7b5, 0x1d9fb3df,
                        0xa3036879, 0x22f9a8cd, 0xf945ce35, 0x4d627acb))
  {
    hide Key, At, After, Schedule, InnerText;
    InnerTextRounds32(w);
    Keys48();
    InnerTextWords48(w);
    FourRounds(INNER_MIDDLE, w, 48,
               0x18eae95d, 0xc30b4900, 0xb5486ab0, 0x9f6132f2, 0x68e92552, 0x2580f283, 0x521dd93c, 0xb871c7e5,
               0x19a4c116, 0xa4405ebd, 0x792962de, 0xdfc9235d, 0x1e376c08, 0xa126f06e, 0xf8f9ec3e, 0x27e4057a,
               0x2748774c, 0x5140b18d, 0x55103dbb, 0x66b8573a, 0x34b0bcb5, 0x0f9727bc, 0xb1b19220, 0xd8fac404);
    FourRounds(INNER_MIDDLE, w, 52,
               0xb1b19220, 0x55103dbb, 0xf8f9ec3e, 0x792962de, 0xd8fac404, 0x66b8573a, 0x27e4057a, 0xdfc9235d,
               0x391c0cb3, 0x96dc649b, 0x72ebf845, 0x7f423327, 0x4ed8aa4a, 0xa7105035, 0x71f4ebf0, 0xc7cca388,
               0x5b9cca4f, 0x1955553f, 0xf1b65c41, 0x44832b00, 0x682e6ff3, 0x4cbc81fd, 0xe73f1bab, 0xdfe69826);
    FourRounds(INNER_MIDDLE, w, 56,
               0xe73f1bab, 0xf1b65c41, 0x71f4ebf0, 0x72ebf845, 0xdfe69826, 0x44832b00, 0xc7cca388, 0x7f423327,
               0x748f82ee, 0xf9992590, 0x69922978, 0x11c9754e, 0x78a5636f, 0x2d78b115, 0x33a4ced7, 0xaae179f5,
               0x84c87814, 0x48b2660c, 0x8d8a1bdb, 0xf21e79c4, 0x8cc70208, 0xc566eb38, 0x39946bf0, 0xe17ff730);
    FourRounds(INNER_MIDDLE, w, 60,
               0x39946bf0, 0x8d8a1bdb, 0x33a4ced7, 0x69922978, 0xe17ff730, 0xf21e79c4, 0xaae179f5, 0x11c9754e,
               0x90befffa, 0xbc4719f4, 0x1d9fb3df, 0x4d627acb, 0xa4506ceb, 0xbd8f6578, 0x0a8fb7b5, 0xf945ce35,
               0xbef9a3f7, 0xe71fceb9, 0x70e4aea1, 0x22f9a8cd, 0xc67178f2, 0x023dd359, 0x3d86dd8c, 0xa3036879);
  }

  lemma OuterKeyRounds0(w: seq<word>)
    requires w == Schedule(OuterKey(), 64)
    ensures After(INITIAL, w, 16,
                  Words(0xe7b8b56f, 0x5e3eeba7, 0xdf63a889, 0xa1a61c47,
                        0x85ada43a, 0x7a1a23a6, 0x1f4a0977, 0xc247b35e))
  {
    hide Key, At, After, Schedule, OuterKey;
    NoRounds(INITIAL, w);
    Keys0();
    OuterKeyWords0(w);
    FourRounds(INITIAL, w, 0,
               0x6a09e667, 0xbb67ae85, 0x3c6ef372, 0xa54ff53a, 0x510e527f, 0x9b05688c, 0x1f83d9ab, 0x5be0cd19,
               0x428a2f98, 0x16393a39, 0x1241c286, 0xaf011cdb, 0x71374491, 0x5c5c5c5c, 0x455055eb, 0xafd267f0,
               0xb5c0fbcf, 0x5c5c5c5c, 0x03637aee, 0x3d2fcf9f, 0xe9b5dba5, 0x5c5c5c5c, 0x3c9c8844, 0xc9219e10);
    FourRounds(INITIAL, w, 4,
               0x3c9c8844, 0x03637aee, 0x455055eb, 0x1241c286, 0xc9219e10, 0x3d2fcf9f, 0xafd267f0, 0xaf011cdb,
               0x3956c25b, 0x5c5c5c5c, 0xcb1304a6, 0x98dc9837, 0x59f111f1, 0x5c5c5c5c, 0xb1133397, 0x0f707dff,
               0x923f82a4, 0x5c5c5c5c, 0xe54a3493, 0xf3639443, 0xab1c5ed5, 0x5c5c5c5c, 0x69435709, 0x4facc1d6);
    FourRounds(INITIAL, w, 8,
               0x69435709, 0xe54a3493, 0xb1133397, 0xcb1304a6, 0x4facc1d6, 0xf3639443, 0x0f707dff, 0x98dc9837,
               0xd807aa98, 0x5c5c5c5c, 0x96d3fb5e, 0x915c0df4, 0x12835b01, 0x5c5c5c5c, 0xba42125f, 0x55649cc8,
               0x243185be, 0x5c5c5c5c, 0xc8369aca, 0x7f195390, 0x550c7dc3, 0x5c5c5c5c, 0xee376db8, 0xfef75e3d);
    FourRounds(INITIAL, w, 12,
               0xee376db8, 0xc8369aca, 0xba42125f, 0x96d3fb5e, 0xfef75e3d, 0x7f195390, 0x55649cc8, 0x915c0df4,
               0x72be5d74, 0x5c5c5c5c, 0xa1a61c47, 0xc247b35e, 0x80deb1fe, 0x5c5c5c5c, 0xdf63a889, 0x1f4a0977,
               0x9bdc06a7, 0x5c5c5c5c, 0x5e3eeba7, 0x7a1a23a6, 0xc19bf174, 0x5c5c5c5c, 0xe7b8b56f, 0x85ada43a);
  }

  lemma OuterKeyRounds16(w: seq<word>)
    requires w == Schedule(OuterKey(), 64)
    ensures After(INITIAL, w, 32,
                  Words(0x223781a1, 0x466a3c05, 0x33c6b89d, 0x66159104,
                        0x28c05066, 0x34384529, 0xe1e1a8b5, 0xb7b33477))
  {
    hide Key, At, After, Schedule, OuterKey;
    OuterKeyRounds0(w);
    Keys16();
    OuterKeyWords16(w);
    FourRounds(INITIAL, w, 16,
               0xe7b8b56f, 0x5e3eeba7, 0xdf63a889, 0xa1a61c47, 0x85ada43a, 0x7a1a23a6, 0x1f4a0977, 0xc247b35e,
               0xe49b69c1, 0xbc6c6d6b, 0xc8ad2b06, 0xdad3ee9e, 0xefbe4786, 0x028f8f8e, 0xa0d6a020, 0x52cc88f8,
               0x0fc19dc6, 0x18148f7c, 0x6643e281, 0x701600c4, 0x240ca1cc, 0x93133fd1, 0x3cbb1ed2, 0x019a631b);
    FourRounds(INITIAL, w, 20,
               0x3cbb1ed2, 0x6643e281, 0xa0d6a020, 0xc8ad2b06, 0x019a631b, 0x701600c4, 0x52cc88f8, 0xdad3ee9e,
               0x2de92c6f, 0x33346707, 0x0b37ef52, 0x194d0d3a, 0x4a7484aa, 0x55131c00, 0x93238532, 0xdde54c39,
               0x5cb0a9dc, 0x1c4c8fc1, 0xb3d8e080, 0xfba08193, 0x76f988da, 0xaa8252d7, 0x897a142a, 0xe78fa9c2);
    FourRounds(INITIAL, w, 24,
               0x897a142a, 0xb3d8e080, 0x93238532, 0x0b37ef52, 0xe78fa9c2, 0xfba08193, 0xdde54c39, 0x194d0d3a,
               0x983e5152, 0xd92fce9a, 0xf9870a23, 0x85ea1054, 0xa831c66d, 0x7bb09081, 0x1c11e5a3, 0x4204e95d,
               0xb00327c8, 0xb23c3c92, 0xa6dcfe16, 0x1418c4dc, 0xbf597fc7, 0x8e036611, 0x86103013, 0x27fa0221);
    FourRounds(INITIAL, w, 28,
               0x86103013, 0xa6dcfe16, 0x1c11e5a3, 0xf9870a23, 0x27fa0221, 0x1418c4dc, 0x4204e95d, 0x85ea1054,
               0xc6e00bf3, 0xef8b1cd6, 0x66159104, 0xb7b33477, 0xd5a79147, 0xfcb68659, 0x33c6b89d, 0xe1e1a8b5,
               0x06ca6351, 0x98cd1c4a, 0x466a3c05, 0x34384529, 0x14292967, 0xa514d1ce, 0x223781a1, 0x28c05066);
  }

  lemma OuterKeyRounds32(w: seq<word>)
    requires w == Schedule(OuterKey(), 64)
    ensures After(INITIAL, w, 48,
                  Words(0x835aa22a, 0xe65638ea, 0x5009f43b, 0x5b5a8b27,
                        0x354edc49, 0xee6c6342, 0x466cefd5, 0x0fb4d10f))
  {
    hide Key, At, After, Schedule, OuterKey;
    OuterKeyRounds16(w);
    Keys32();
    OuterKeyWords32(w);
    FourRounds(INITIAL, w, 32,
               0x223781a1, 0x466a3c05, 0x33c6b89d, 0x66159104, 0x28c05066, 0x34384529, 0xe1e1a8b5, 0xb7b33477,
               0x27b70a85, 0x655e9871, 0xd822185e, 0x804e7b81, 0x2e1b2138, 0x80b14e30, 0x54ecb192, 0x49f215c3,
               0x4d2c6dfc, 0xc3f7e470, 0xad7954cf, 0xf84d3cf0, 0x53380d13, 0x235e01a7, 0xe7d10d33, 0x85307daa);
    FourRounds(INITIAL, w, 36,
               0xe7d10d33, 0xad7954cf, 0x54ecb192, 0xd822185e, 0x85307daa, 0xf84d3cf0, 0x49f215c3, 0x804e7b81,
               0x650a7354, 0x0b79c2d8, 0xfb686937, 0x1931b9a7, 0x766a0abb, 0x51112a82, 0x297f2869, 0x78316de1,
               0x81c2c92e, 0xc947e091, 0xe332a1f9, 0xaf7ba84f, 0x92722c85, 0x9d17222d, 0x2085ac20, 0x5f583973);
    FourRounds(INITIAL, w, 40,
               0x2085ac20, 0xe332a1f9, 0x297f2869, 0xfb686937, 0x5f583973, 0xaf7ba84f, 0x78316de1, 0x1931b9a7,
               0xa2bfe8a1, 0x8fead71a, 0x6b28b082, 0xc5c881a9, 0xa81a664b, 0xf1240136, 0x16966c26, 0x20d97726,
               0xc24b8b70, 0xf2403484, 0xb476c398, 0xb7ff018f, 0xc76c51a3, 0x911ae6e0, 0x2a70095c, 0x29e86379);
    FourRounds(INITIAL, w, 44,
               0x2a70095c, 0xb476c398, 0x16966c26, 0x6b28b082, 0x29e86379, 0xb7ff018f, 0x20d97726, 0xc5c881a9,
               0xd192e819, 0x6b8481a7, 0x5b5a8b27, 0x0fb4d10f, 0xd6990624, 0xb6c12283, 0x5009f43b, 0x466cefd5,
               0xf40e3585, 0xc47d12e8, 0xe65638ea, 0xee6c6342, 0x106aa070, 0x32b8fe41, 0x835aa22a, 0x354edc49);
  }

  lemma OuterKeyRounds48(w: seq<word>)
    requires w == Schedule(OuterKey(), 64)
    ensures After(INITIAL, w, 64,
                  Words(0xa4a5fd6e, 0x57d97fe7, 0x2dfb3c79, 0x87e76592,
                        0x0096aac8, 0xd2ab2d5c, 0x043bc7df, 0xf71074bc))
  {
    hide Key, At, After, Schedule, OuterKey;
    OuterKeyRounds32(w);
    Keys48();
    OuterKeyWords48(w);
    FourRounds(INITIAL, w, 48,
               0x835aa22a, 0xe65638ea, 0x5009f43b, 0x5b5a8b27, 0x354edc49, 0xee6c6342, 0x466cefd5, 0x0fb4d10f,
               0x19a4c116, 0xa4366b12, 0xdbfedfb7, 0x99f4a262, 0x1e376c08, 0xd4bab7a3, 0xa0b0242f, 0x3d1ba64c,
               0x2748774c, 0x18198b37, 0x4980a430, 0xa21a84e3, 0x34b0bcb5, 0x5dc30ab5, 0x1ca2eaeb, 0xa4da44af);
    FourRounds(INITIAL, w, 52,
               0x1ca2eaeb, 0x4980a430, 0xa0b0242f, 0xdbfedfb7, 0xa4da44af, 0xa21a84e3, 0x3d1ba64c, 0x99f4a262,
               0x391c0cb3, 0xfb56e209, 0xf2457593, 0xa9c7bd40, 0x4ed8aa4a, 0xbc47b487, 0xd2dbf54f, 0xd532b445,
               0x5b9cca4f, 0x298fa38f, 0xd3a780aa, 0x1946da48, 0x682e6ff3, 0xff6df23c, 0x8a8b3fbf, 0xa4a85ec7);
    FourRounds(INITIAL, w, 56,
               0x8a8b3fbf, 0xd3a780aa, 0xd2dbf54f, 0xf2457593, 0xa4a85ec7, 0x1946da48, 0xd532b445, 0xa9c7bd40,
               0x748f82ee, 0xfded1548, 0x05ccc2a3, 0xf1e61ceb, 0x78a5636f, 0x6b3181fd, 0x8e535f40, 0xf63e3f0b,
               0x84c87814, 0xe2eea69e, 0x6717179f, 0x17059133, 0x8cc70208, 0xe11be15d, 0xb31fa7ba, 0xfcf30f33);
    FourRounds(INITIAL, w, 60,
               0xb31fa7ba, 0x6717179f, 0x8e535f40, 0x05ccc2a3, 0xfcf30f33, 0x17059133, 0xf63e3f0b, 0xf1e61ceb,
               0x90befffa, 0x08859856, 0x87e76592, 0xf71074bc, 0xa4506ceb, 0xfacb39cf, 0x2dfb3c79, 0x043bc7df,
               0xbef9a3f7, 0xfeb10bf2, 0x57d97fe7, 0xd2ab2d5c, 0xc67178f2, 0xd790cd34, 0xa4a5fd6e, 0x0096aac8);
  }

  lemma OuterTextRounds0(w: seq<word>)
    requires w == Schedule(OuterText(), 64)
    ensures After(OUTER_MIDDLE, w, 16,
                  Words(0x524a1ef8, 0x8777eeed, 0x9af3cfc9, 0xb3f53c2a,
                        0x2e2fafb1, 0x6a605c43, 0x661ce7b3, 0xac6ca791))
  {
    hide Key, At, After, Schedule, OuterText;
    NoRounds(OUTER_MIDDLE, w);
    Keys0();
    OuterTextWords0(w);
    FourRounds(OUTER_MIDDLE, w, 0,
               0x0eafe3d5, 0x13412e6c, 0x6a6a2feb, 0x2d375acc, 0x51a4fd47, 0x6db095e8, 0x23bfa18a, 0x52f141d5,
               0x428a2f98, 0xa2e48586, 0xf0e59b1a, 0x3124ec49, 0x71374491, 0x3d27f9d8, 0x74d0a70d, 0xd9d2a173,
               0xb5c0fbcf, 0x64ac8d80, 0x3e39426b, 0xb4d11325, 0xe9b5dba5, 0x2432a1ed, 0x3b3e45a9, 0x9b1e98cb);
    FourRounds(OUTER_MIDDLE, w, 4,
               0x3b3e45a9, 0x3e39426b, 0x74d0a70d, 0xf0e59b1a, 0x9b1e98cb, 0xb4d11325, 0xd9d2a173, 0x3124ec49,
               0x3956c25b, 0x477d8c4c, 0x13e61c3b, 0x2c0283b8, 0x59f111f1, 0x6f349d16, 0xcb506feb, 0x4790de5c,
               0x923f82a4, 0xd4e7e917, 0x12acdcbb, 0x6939e327, 0xab1c5ed5, 0xc629cad7, 0x5d1582d4, 0xf26e1dc0);
    FourRounds(OUTER_MIDDLE, w, 8,
               0x5d1582d4, 0x12acdcbb, 0xcb506feb, 0x13e61c3b, 0xf26e1dc0, 0x6939e327, 0x4790de5c, 0x2c0283b8,
               0xd807aa98, 0x80000000, 0x299dafa1, 0x8a822374, 0x12835b01, 0x00000000, 0x96690f80, 0x064b4d17,
               0x243185be, 0x00000000, 0x75af6d08, 0x6d9dc752, 0x550c7dc3, 0x00000000, 0x38e7f5bb, 0x97b3f120);
    FourRounds(OUTER_MIDDLE, w, 12,
               0x38e7f5bb, 0x75af6d08, 0x96690f80, 0x299dafa1, 0x97b3f120, 0x6d9dc752, 0x064b4d17, 0x8a822374,
               0x72be5d74, 0x00000000, 0xb3f53c2a, 0xac6ca791, 0x80deb1fe, 0x00000000, 0x9af3cfc9, 0x661ce7b3,
               0x9bdc06a7, 0x00000000, 0x8777eeed, 0x6a605c43, 0xc19bf174, 0x00000300, 0x524a1ef8, 0x2e2fafb1);
  }

  lemma OuterTextRounds16(w: seq<word>)
    requires w == Schedule(OuterText(), 64)
    ensures After(OUTER_MIDDLE, w, 32,
                  Words(0xf5637c6b, 0x6a101e8a, 0x88ff9220, 0x804e3e18,
                        0x36193288, 0xad346d31, 0x90550f47, 0x2b124b23))
  {
    hide Key, At, After, Schedule, OuterText;
    OuterTextRounds0(w);
    Keys16();
    OuterTextWords16(w);
    FourRounds(OUTER_MIDDLE, w, 16,
               0x524a1ef8, 0x8777eeed, 0x9af3cfc9, 0xb3f53c2a, 0x2e2fafb1, 0x6a605c43, 0x661ce7b3, 0xac6ca791,
               0xe49b69c1, 0xec8d4507, 0x6ab009c8, 0xc1058262, 0xefbe4786, 0x6e44cb58, 0x0b5d65cb, 0xcf16b054,
               0x0fc19dc6, 0xe57a2e78, 0xf737884e, 0x9b3f39bf, 0x240ca1cc, 0x1481a913, 0x14a85bed, 0xda2210a8);
    FourRounds(OUTER_MIDDLE, w, 20,
               0x14a85bed, 0xf737884e, 0x0b5d65cb, 0x6ab009c8, 0xda2210a8, 0x9b3f39bf, 0xcf16b054, 0xc1058262,
               0x2de92c6f, 0xa0c51e3a, 0x28d0682e, 0x4116203c, 0x4a7484aa, 0x20542d99, 0x513d0d3f, 0x9d044671,
               0x5cb0a9dc, 0xc7d6bc99, 0xe78abb5d, 0x8488c299, 0x76f988da, 0x572ed109, 0xca1dd9eb, 0xf34d277d);
    FourRounds(OUTER_MIDDLE, w, 24,
               0xca1dd9eb, 0xe78abb5d, 0x513d0d3f, 0x28d0682e, 0xf34d277d, 0x8488c299, 0x9d044671, 0x4116203c,
               0x983e5152, 0x7832fa16, 0xaa4cb4b8, 0xc540f9ab, 0xa831c66d, 0x982a793e, 0x80cb7f4b, 0x2a7734af,
               0xb00327c8, 0x36d9a8b4, 0x11668226, 0x370f480e, 0xbf597fc7, 0x1463b3c8, 0xf7c152af, 0x322ec278);
    FourRounds(OUTER_MIDDLE, w, 28,
               0xf7c152af, 0x11668226, 0x80cb7f4b, 0xaa4cb4b8, 0x322ec278, 0x370f480e, 0x2a7734af, 0xc540f9ab,
               0xc6e00bf3, 0x01955976, 0x804e3e18, 0x2b124b23, 0xd5a79147, 0x776eccea, 0x88ff9220, 0x90550f47,
               0x06ca6351, 0x5f84771d, 0x6a101e8a, 0xad346d31, 0x14292967, 0x7b31f508, 0xf5637c6b, 0x36193288);
  }

  lemma OuterTextRounds32(w: seq<word>)
    requires w == Schedule(OuterText(), 64)
    ensures After(OUTER_MIDDLE, w, 48,
                  Words(0x5ab28db9, 0xa4d05bd3, 0x0795c206, 0x31c61bbf,
                        0x4504e9e3, 0xc04b2c11, 0xb061e903, 0x9b30b56e))
  {
    hide Key, At, After, Schedule, OuterText;
    OuterTextRounds16(w);
    Keys32();
    OuterTextWords32(w);
    FourRounds(OUTER_MIDDLE, w, 32,
               0xf5637c6b, 0x6a101e8a, 0x88ff9220, 0x804e3e18, 0x36193288, 0xad346d31, 0x90550f47, 0x2b124b23,
               0x27b70a85, 0xc9f4aee0, 0xbac40fc4, 0xbea853de, 0x2e1b2138, 0xd055fb5c, 0x55d2eba2, 0xa3e697be,
               0x4d2c6dfc, 0x0b79d67f, 0x342f2c31, 0x24b43db1, 0x53380d13, 0x7fe06bb1, 0xb17f8072, 0xe1ea1e98);
    FourRounds(OUTER_MIDDLE, w, 36,
               0xb17f8072, 0x342f2c31, 0x55d2eba2, 0xbac40fc4, 0xe1ea1e98, 0x24b43db1, 0xa3e697be, 0xbea853de,
               0x650a7354, 0x27530bc7, 0x3a8a934f, 0x6e0359bc, 0x766a0abb, 0x3cdd17eb, 0x2e42d717, 0xd54ff5d9,
               0x81c2c92e, 0xd3a5276a, 0x0d153365, 0x8e8430d5, 0x92722c85, 0xe79ef353, 0x0939a676, 0x0015e35d);
    FourRounds(OUTER_MIDDLE, w, 40,
               0x0939a676, 0x0d153365, 0x2e42d717, 0x3a8a934f, 0x0015e35d, 0x8e8430d5, 0xd54ff5d9, 0x6e0359bc,
               0xa2bfe8a1, 0x70708e40, 0xd04db10e, 0xa65e9472, 0xa81a664b, 0x503a442e, 0x558052cc, 0x7003a10e,
               0xc24b8b70, 0x8c04f280, 0xea1d3715, 0x23df2e45, 0xc76c51a3, 0x60a9ae13, 0x86ed36a6, 0x09255f8c);
    FourRounds(OUTER_MIDDLE, w, 44,
               0x86ed36a6, 0xea1d3715, 0x558052cc, 0xd04db10e, 0x09255f8c, 0x23df2e45, 0x7003a10e, 0xa65e9472,
               0xd192e819, 0x8edf61fe, 0x31c61bbf, 0x9b30b56e, 0xd6990624, 0x5a70bc6a, 0x0795c206, 0xb061e903,
               0xf40e3585, 0x06d8cf63, 0xa4d05bd3, 0xc04b2c11, 0x106aa070, 0x2866cc9d, 0x5ab28db9, 0x4504e9e3);
  }

  lemma OuterTextRounds48(w: seq<word>)
    requires w == Schedule(OuterText(), 64)
    ensures After(OUTER_MIDDLE, w, 64,
                  Words(0x4d2cdd71, 0xac1f46e2, 0xff99f43b, 0xdb5e1afb,
                        0x085b41c1, 0x2f76a39b, 0x7a2cb72f, 0x11faf66e))
  {
    hide Key, At, After, Schedule, OuterText;
    OuterTextRounds32(w);
    Keys48();
    OuterTextWords48(w);
    FourRounds(OUTER_MIDDLE, w, 48,
               0x5ab28db9, 0xa4d05bd3, 0x0795c206, 0x31c61bbf, 0x4504e9e3, 0xc04b2c11, 0xb061e903, 0x9b30b56e,
               0x19a4c116, 0x7608691a, 0x4628a95a, 0x800d65f6, 0x1e376c08, 0xa7182225, 0xd908ac74, 0x1ff07294,
               0x2748774c, 0x1dc70eca, 0x11a2ef9d, 0xe4f56dbc, 0x34b0bcb5, 0x6c947dd1, 0x2e630aba, 0x84aea861);
    FourRounds(OUTER_MIDDLE, w, 52,
               0x2e630aba, 0x11a2ef9d, 0xd908ac74, 0x4628a95a, 0x84aea861, 0xe4f56dbc, 0x1ff07294, 0x800d65f6,
               0x391c0cb3, 0x7c97dcae, 0x1eb1f18c, 0xf954931b, 0x4ed8aa4a, 0x7b09005f, 0x7ffaa436, 0xee54ab78,
               0x5b9cca4f, 0x19d1e2a0, 0x7e24f1f8, 0xfbf6b1b0, 0x682e6ff3, 0xab60d9da, 0x13793033, 0xbf9e1c90);
    FourRounds(OUTER_MIDDLE, w, 56,
               0x13793033, 0x7e24f1f8, 0x7ffaa436, 0x1eb1f18c, 0xbf9e1c90, 0xfbf6b1b0, 0xee54ab78, 0xf954931b,
               0x748f82ee, 0xac37d412, 0x56d92dbb, 0x548c538d, 0x78a5636f, 0x1236e096, 0x6f544952, 0xbbfbaad1,
               0x84c87814, 0x4a8a3d6d, 0x989fc133, 0x3f0868ad, 0x8cc70208, 0xbe58c2f1, 0x9b56f73d, 0xbf32e36d);
    FourRounds(OUTER_MIDDLE, w, 60,
               0x9b56f73d, 0x989fc133, 0x6f544952, 0x56d92dbb, 0xbf32e36d, 0x3f0868ad, 0xbbfbaad1, 0x548c538d,
               0x90befffa, 0x53d27161, 0xdb5e1afb, 0x11faf66e, 0xa4506ceb, 0xe25a87a5, 0xff99f43b, 0x7a2cb72f,
               0xbef9a3f7, 0xb53d7e5f, 0xac1f46e2, 0x2f76a39b, 0xc67178f2, 0x0828fce9, 0x4d2cdd71, 0x085b41c1);
  }

  // ---------- The code ----------

  lemma InnerKeyCompression()
    ensures Compress(INITIAL, InnerKey()) == INNER_MIDDLE
  {
    hide Rounds, Round, Schedule, InnerKey;
    InnerKeyRounds48(Schedule(InnerKey(), 64));
  }

  lemma InnerTextCompression()
    ensures Compress(INNER_MIDDLE, InnerText()) == INNER
  {
    hide Rounds, Round, Schedule, InnerText;
    InnerTextRounds48(Schedule(InnerText(), 64));
  }

  lemma OuterKeyCompression()
    ensures Compress(INITIAL, OuterKey()) == OUTER_MIDDLE
  {
    hide Rounds, Round, Schedule, OuterKey;
    OuterKeyRounds48(Schedule(OuterKey(), 64));
  }

  lemma OuterTextCompression()
    ensures Compress(OUTER_MIDDLE, OuterText()) == OUTER
  {
    hide Rounds, Round, Schedule, OuterText;
    OuterTextRounds48(Schedule(OuterText(), 64));
  }

  /** The digest of two blocks of padded message. */
  lemma DigestOfTwo(m: seq<octet>, first: seq<octet>, second: seq<octet>)
    requires |first| == |second| == 64 && Pad(m) == first + second
    ensures Digest(m) == DigestBytes(Compress(Compress(INITIAL, first), second))
  {
    hide Compress, Pad, Blocks, DigestBytes;
    NoBlocks();
    BlocksStep([], first);
    BlocksStep(first, second);
    assert [] + first == first;
  }

  /** The two bytes of the length. */
  lemma TwoLengthBytes(high: nat, low: nat)
    requires high < 256 && low < 256
    ensures BigEndian64((256 * high + low) % UINT64) == [0, 0, 0, 0, 0, 0, high as octet, low as octet]
  {
    hide LengthByte;
    TwoLengthByte(high, low, 0);
    TwoLengthByte(high, low, 1);
    TwoLengthByte(high, low, 2);
    TwoLengthByte(high, low, 3);
    TwoLengthByte(high, low, 4);
    TwoLengthByte(high, low, 5);
    TwoLengthByte(high, low, 6);
    TwoLengthByte(high, low, 7);
  }

  lemma TwoLengthByte(high: nat, low: nat, k: nat)
    requires high < 256 && low < 256
    ensures LengthByte(256 * high + low, k) == if k == 0 then low as octet else if k == 1 then high as octet else 0
  {
    hide LengthByte;
    LengthByteStep(256 * high + low, k);
    if k != 0 {
      LengthByteStep(high, k - 1);
      if k != 1 {
        NoLength(k - 2);
      }
    }
  }

  lemma KeyBlocks()
    ensures Mask(KeyBlock(KEY), 0x36) == InnerKey() && Mask(KeyBlock(KEY), 0x5c) == OuterKey()
  {
  }

  lemma InnerPadded()
    ensures Pad(InnerKey() + TEXT) == InnerKey() + InnerText()
  {
    hide BigEndian64, InnerKey;
    TwoLengthBytes(0x02, 0xe0);
    assert InnerText() == TEXT + [0x80] + Zeros(27) + [0, 0, 0, 0, 0, 0, 0x02, 0xe0];
  }

  lemma OuterPadded()
    ensures Pad(OuterKey() + DigestBytes(INNER)) == OuterKey() + OuterText()
  {
    hide BigEndian64, OuterKey, DigestBytes;
    TwoLengthBytes(0x03, 0x00);
    assert OuterText() == DigestBytes(INNER) + [0x80] + Zeros(23) + [0, 0, 0, 0, 0, 0, 0x03, 0x00];
  }

  /** The code of the RFC's test case, evaluated. */
  lemma CodeOfExample()
    ensures Hmac(KEY, TEXT) == CODE
  {
    hide Digest, Compress, InnerKey, InnerText, OuterKey, OuterText, KeyBlock, Mask, Pad, DigestBytes;
    KeyBlocks();
    InnerPadded();
    DigestOfTwo(InnerKey() + TEXT, InnerKey(), InnerText());
    InnerKeyCompression();
    InnerTextCompression();
    OuterPadded();
    DigestOfTwo(OuterKey() + DigestBytes(INNER), OuterKey(), OuterText());
    OuterKeyCompression();
    OuterTextCompression();
    OuterBytes();
  }
}
