/**
 The standard's SHA-256 evaluated on one message, 65 zero bytes: the schedule
 and the 64 rounds of its two blocks, word by word. The digest is
 98ce42de ef51d402 69d542f5 314bef2c 7468d401 ad5d8516 8bfab4c0 108f75f7.
 */
module Sha256Example {
  import opened Sha256Standard

  /** The hash value after the first block, 64 zero bytes. */
  const MIDDLE := Words(0xda5698be, 0x17b9b469, 0x62335799, 0x779fbeca,
                        0x8ce5d491, 0xc0d26243, 0xbafef9ea, 0x1837a9d8)

  /** The second block: the last zero byte, the padding, and the length of 520 bits. */
  function SecondBlock(): (b: seq<octet>)
    ensures |b| == 64
  {
    [0x00, 0x80] + Zeros(60) + [0x02, 0x08]
  }

  // The facts of the evaluation. Each is about words that are written out.

  // The operations of the standard, each as one expression.

  function Xor3(x: word, y: word, z: word): word { x ^ y ^ z }

  function Sum4(v: word, w: word, x: word, y: word): word { v + w + x + y }

  function Sum5(v: word, w: word, x: word, y: word, z: word): word { v + w + x + y + z }

  function FlatT1(e: word, f: word, g: word, h: word, k: word, w: word): word {
    h + (((e >> 6) | (e << 26)) ^ ((e >> 11) | (e << 21)) ^ ((e >> 25) | (e << 7))) + ((e & f) ^ (!e & g)) + k + w
  }

  function FlatT2(a: word, b: word, c: word): word {
    (((a >> 2) | (a << 30)) ^ ((a >> 13) | (a << 19)) ^ ((a >> 22) | (a << 10))) + ((a & b) ^ (a & c) ^ (b & c))
  }

  /** The next word of a schedule, from the words 16, 15, 7 and 2 places before it. */
  function Following(p: word, q: word, y: word, z: word): word {
    (((z >> 17) | (z << 15)) ^ ((z >> 19) | (z << 13)) ^ (z >> 10)) + y +
    (((q >> 7) | (q << 25)) ^ ((q >> 18) | (q << 14)) ^ (q >> 3)) + p
  }

  lemma Rotations(x: word)
    ensures RotR(x, 2) == (x >> 2) | (x << 30) && RotR(x, 13) == (x >> 13) | (x << 19)
    ensures RotR(x, 22) == (x >> 22) | (x << 10) && RotR(x, 6) == (x >> 6) | (x << 26)
    ensures RotR(x, 11) == (x >> 11) | (x << 21) && RotR(x, 25) == (x >> 25) | (x << 7)
    ensures RotR(x, 7) == (x >> 7) | (x << 25) && RotR(x, 18) == (x >> 18) | (x << 14)
    ensures RotR(x, 17) == (x >> 17) | (x << 15) && RotR(x, 19) == (x >> 19) | (x << 13)
  {
  }

  lemma BigSigmaXors(x: word)
    ensures BigSigma0(x) == Xor3(RotR(x, 2), RotR(x, 13), RotR(x, 22))
    ensures BigSigma1(x) == Xor3(RotR(x, 6), RotR(x, 11), RotR(x, 25))
  {
    hide RotR;
  }

  lemma SmallSigma0Xors(x: word)
    ensures SmallSigma0(x) == Xor3(RotR(x, 7), RotR(x, 18), x >> 3)
  {
    hide RotR;
  }

  lemma SmallSigma1Xors(x: word)
    ensures SmallSigma1(x) == Xor3(RotR(x, 17), RotR(x, 19), x >> 10)
  {
    hide RotR;
  }

  lemma Sigmas(x: word)
    ensures BigSigma0(x) == Xor3((x >> 2) | (x << 30), (x >> 13) | (x << 19), (x >> 22) | (x << 10))
    ensures BigSigma1(x) == Xor3((x >> 6) | (x << 26), (x >> 11) | (x << 21), (x >> 25) | (x << 7))
    ensures SmallSigma0(x) == Xor3((x >> 7) | (x << 25), (x >> 18) | (x << 14), x >> 3)
    ensures SmallSigma1(x) == Xor3((x >> 17) | (x << 15), (x >> 19) | (x << 13), x >> 10)
  {
    hide RotR, Xor3, BigSigma0, BigSigma1, SmallSigma0, SmallSigma1;
    Rotations(x);
    BigSigmaXors(x);
    SmallSigma0Xors(x);
    SmallSigma1Xors(x);
  }

  lemma Add2(v: word, w: word)
    ensures Plus(v, w) == v + w
  {
  }

  lemma Add3(v: word, w: word, x: word)
    ensures Plus(v + w, x) == v + w + x
  {
  }

  lemma Add4(v: word, w: word, x: word, y: word)
    ensures Plus(v + w + x, y) == v + w + x + y == Sum4(v, w, x, y)
  {
  }

  lemma Add5(v: word, w: word, x: word, y: word, z: word)
    ensures Plus(v + w + x + y, z) == Sum5(v, w, x, y, z)
  {
  }

  lemma Sums(v: word, w: word, x: word, y: word, z: word)
    ensures Plus(Plus(Plus(v, w), x), y) == Sum4(v, w, x, y)
    ensures Plus(Plus(Plus(Plus(v, w), x), y), z) == Sum5(v, w, x, y, z)
  {
    hide Plus, Sum4, Sum5;
    Add2(v, w);
    Add3(v, w, x);
    Add4(v, w, x, y);
    Add5(v, w, x, y, z);
  }

  // Each sigma without the function for the exclusive or.

  lemma FlatBigSigma1(x: word)
    ensures BigSigma1(x) == ((x >> 6) | (x << 26)) ^ ((x >> 11) | (x << 21)) ^ ((x >> 25) | (x << 7))
  {
    hide BigSigma1;
    Sigmas(x);
  }

  lemma FlatBigSigma0(x: word)
    ensures BigSigma0(x) == ((x >> 2) | (x << 30)) ^ ((x >> 13) | (x << 19)) ^ ((x >> 22) | (x << 10))
  {
    hide BigSigma0;
    Sigmas(x);
  }

  lemma FlatSmallSigma0(x: word)
    ensures SmallSigma0(x) == ((x >> 7) | (x << 25)) ^ ((x >> 18) | (x << 14)) ^ (x >> 3)
  {
    hide SmallSigma0;
    Sigmas(x);
  }

  lemma FlatSmallSigma1(x: word)
    ensures SmallSigma1(x) == ((x >> 17) | (x << 15)) ^ ((x >> 19) | (x << 13)) ^ (x >> 10)
  {
    hide SmallSigma1;
    Sigmas(x);
  }

  lemma FlatT1Is(e: word, f: word, g: word, h: word, k: word, w: word)
    ensures FlatT1(e, f, g, h, k, w) == T1(e, f, g, h, k, w)
  {
    hide Plus, Sum4, Sum5, Ch, BigSigma1, FlatT1;
    FlatBigSigma1(e);
    FlatCh(e, f, g);
    Sums(h, BigSigma1(e), Ch(e, f, g), k, w);
    FlatT1Sum(e, f, g, h, k, w);
  }

  lemma FlatCh(e: word, f: word, g: word)
    ensures Ch(e, f, g) == (e & f) ^ (!e & g)
  {
  }

  lemma FlatT1Sum(e: word, f: word, g: word, h: word, k: word, w: word)
    ensures FlatT1(e, f, g, h, k, w) ==
            Sum5(h, ((e >> 6) | (e << 26)) ^ ((e >> 11) | (e << 21)) ^ ((e >> 25) | (e << 7)),
                 (e & f) ^ (!e & g), k, w)
  {
  }

  lemma FlatT2Is(a: word, b: word, c: word)
    ensures FlatT2(a, b, c) == T2(a, b, c)
  {
    hide Maj, BigSigma0, FlatT2, Plus;
    FlatBigSigma0(a);
    FlatMaj(a, b, c);
    FlatT2Sum(a, b, c);
  }

  lemma FlatMaj(a: word, b: word, c: word)
    ensures Maj(a, b, c) == (a & b) ^ (a & c) ^ (b & c)
  {
  }

  lemma FlatT2Sum(a: word, b: word, c: word)
    ensures FlatT2(a, b, c) == Plus(((a >> 2) | (a << 30)) ^ ((a >> 13) | (a << 19)) ^ ((a >> 22) | (a << 10)),
                                    (a & b) ^ (a & c) ^ (b & c))
  {
  }

  lemma FollowingIs(p: word, q: word, y: word, z: word)
    ensures Following(p, q, y, z) == Plus(Plus(Plus(SmallSigma1(z), y), SmallSigma0(q)), p)
  {
    hide Plus, Sum4, SmallSigma0, SmallSigma1, Following;
    FlatSmallSigma0(q);
    FlatSmallSigma1(z);
    Sums(SmallSigma1(z), y, SmallSigma0(q), p, 0);
    FollowingSum(p, q, y, z);
  }

  lemma FollowingSum(p: word, q: word, y: word, z: word)
    ensures Following(p, q, y, z) ==
            Sum4(((z >> 17) | (z << 15)) ^ ((z >> 19) | (z << 13)) ^ (z >> 10), y,
                 ((q >> 7) | (q << 25)) ^ ((q >> 18) | (q << 14)) ^ (q >> 3), p)
  {
  }

  lemma FlatRound(a: word, b: word, c: word, d: word, e: word, f: word, g: word, h: word, k: word, x: word)
    ensures Round(Words(a, b, c, d, e, f, g, h), k, x) ==
            Words(FlatT1(e, f, g, h, k, x) + FlatT2(a, b, c), a, b, c, d + FlatT1(e, f, g, h, k, x), e, f, g)
  {
    hide FlatT1, FlatT2, T1, T2, Plus;
    FlatT1Is(e, f, g, h, k, x);
    FlatT2Is(a, b, c);
    Add2(FlatT1(e, f, g, h, k, x), FlatT2(a, b, c));
    Add2(d, FlatT1(e, f, g, h, k, x));
  }

  predicate Key(t: nat, k: word) { t < |ROUND_CONSTANTS| && ROUND_CONSTANTS[t] == k }

  predicate At(w: seq<word>, t: nat, x: word) { t < |w| && w[t] == x }

  predicate After(s: Words, w: seq<word>, t: nat, v: Words) { t <= |w| <= 64 && Rounds(s, w, t) == v }

  lemma OneRound(s: Words, w: seq<word>, t: nat, v: Words, k: word, x: word)
    requires Key(t, k) && At(w, t, x) && After(s, w, t, v)
    ensures After(s, w, t + 1, Round(v, k, x))
  {
    hide Round;
  }

  /** Four rounds, each of which finds one new value for `a` and one for `e`. */
  lemma FourRounds(s: Words, w: seq<word>, t: nat,
                   a: word, b: word, c: word, d: word, e: word, f: word, g: word, h: word,
                   k1: word, x1: word, a1: word, e1: word, k2: word, x2: word, a2: word, e2: word,
                   k3: word, x3: word, a3: word, e3: word, k4: word, x4: word, a4: word, e4: word)
    requires After(s, w, t, Words(a, b, c, d, e, f, g, h))
    requires Key(t, k1) && Key(t + 1, k2) && Key(t + 2, k3) && Key(t + 3, k4)
    requires At(w, t, x1) && At(w, t + 1, x2) && At(w, t + 2, x3) && At(w, t + 3, x4)
    requires e1 == d + FlatT1(e, f, g, h, k1, x1) && a1 == FlatT1(e, f, g, h, k1, x1) + FlatT2(a, b, c)
    requires e2 == c + FlatT1(e1, e, f, g, k2, x2) && a2 == FlatT1(e1, e, f, g, k2, x2) + FlatT2(a1, a, b)
    requires e3 == b + FlatT1(e2, e1, e, f, k3, x3) && a3 == FlatT1(e2, e1, e, f, k3, x3) + FlatT2(a2, a1, a)
    requires e4 == a + FlatT1(e3, e2, e1, e, k4, x4) && a4 == FlatT1(e3, e2, e1, e, k4, x4) + FlatT2(a3, a2, a1)
    ensures After(s, w, t + 4, Words(a4, a3, a2, a1, e4, e3, e2, e1))
  {
    hide Key, At, After, Round, FlatT1, FlatT2;
    FlatRound(a, b, c, d, e, f, g, h, k1, x1);
    FlatRound(a1, a, b, c, e1, e, f, g, k2, x2);
    FlatRound(a2, a1, a, b, e2, e1, e, f, k3, x3);
    FlatRound(a3, a2, a1, a, e3, e2, e1, e, k4, x4);
    OneRound(s, w, t, Words(a, b, c, d, e, f, g, h), k1, x1);
    OneRound(s, w, t + 1, Words(a1, a, b, c, e1, e, f, g), k2, x2);
    OneRound(s, w, t + 2, Words(a2, a1, a, b, e2, e1, e, f), k3, x3);
    OneRound(s, w, t + 3, Words(a3, a2, a1, a, e3, e2, e1, e), k4, x4);
  }

  lemma {:induction false} ScheduleGrows(block: seq<octet>, t: nat, n: nat)
    requires |block| == 64 && t <= n
    ensures Schedule(block, n)[..t] == Schedule(block, t)
  {
    hide NextWord, WordOf;
    if t < n {
      ScheduleGrows(block, t, n - 1);
    }
  }

  lemma OneWord(block: seq<octet>, w: seq<word>, t: nat, p: word, q: word, y: word, z: word)
    requires |block| == 64 && 16 <= t < 64 && w == Schedule(block, 64)
    requires At(w, t - 16, p) && At(w, t - 15, q) && At(w, t - 7, y) && At(w, t - 2, z)
    ensures At(w, t, Following(p, q, y, z))
  {
    hide Plus, SmallSigma0, SmallSigma1, WordOf, Following;
    FollowingIs(p, q, y, z);
    ScheduleGrows(block, t, 64);
    ScheduleGrows(block, t + 1, 64);
    assert w[t] == w[..t + 1][t] == NextWord(w[..t]);
  }

  /** Four words of the schedule, from the five, four and two earlier words that they depend on. */
  lemma FourWords(block: seq<octet>, w: seq<word>, t: nat,
                  p0: word, p1: word, p2: word, p3: word, p4: word, y0: word, y1: word, y2: word, y3: word,
                  z0: word, z1: word, x0: word, x1: word, x2: word, x3: word)
    requires |block| == 64 && 16 <= t <= 60 && w == Schedule(block, 64)
    requires At(w, t - 16, p0) && At(w, t - 15, p1) && At(w, t - 14, p2)
    requires At(w, t - 13, p3) && At(w, t - 12, p4)
    requires At(w, t - 7, y0) && At(w, t - 6, y1) && At(w, t - 5, y2) && At(w, t - 4, y3)
    requires At(w, t - 2, z0) && At(w, t - 1, z1)
    requires Following(p0, p1, y0, z0) == x0 && Following(p1, p2, y1, z1) == x1
    requires Following(p2, p3, y2, x0) == x2 && Following(p3, p4, y3, x1) == x3
    ensures At(w, t, x0) && At(w, t + 1, x1) && At(w, t + 2, x2) && At(w, t + 3, x3)
  {
    hide Schedule, At, Following;
    OneWord(block, w, t, p0, p1, y0, z0);
    OneWord(block, w, t + 1, p1, p2, y1, z1);
    OneWord(block, w, t + 2, p2, p3, y2, x0);
    OneWord(block, w, t + 3, p3, p4, y3, x1);
  }

  const DIGEST := Words(0x98ce42de, 0xef51d402, 0x69d542f5, 0x314bef2c,
                        0x7468d401, 0xad5d8516, 0x8bfab4c0, 0x108f75f7)

  // ---------- The round constants ----------

  lemma Keys0()
    ensures Key(0, 0x428a2f98) && Key(1, 0x71374491) && Key(2, 0xb5c0fbcf) && Key(3, 0xe9b5dba5)
    ensures Key(4, 0x3956c25b) && Key(5, 0x59f111f1) && Key(6, 0x923f82a4) && Key(7, 0xab1c5ed5)
    ensures Key(8, 0xd807aa98) && Key(9, 0x12835b01) && Key(10, 0x243185be) && Key(11, 0x550c7dc3)
    ensures Key(12, 0x72be5d74) && Key(13, 0x80deb1fe) && Key(14, 0x9bdc06a7) && Key(15, 0xc19bf174)
  {
  }

  lemma Keys16()
    ensures Key(16, 0xe49b69c1) && Key(17, 0xefbe4786) && Key(18, 0x0fc19dc6) && Key(19, 0x240ca1cc)
    ensures Key(20, 0x2de92c6f) && Key(21, 0x4a7484aa) && Key(22, 0x5cb0a9dc) && Key(23, 0x76f988da)
    ensures Key(24, 0x983e5152) && Key(25, 0xa831c66d) && Key(26, 0xb00327c8) && Key(27, 0xbf597fc7)
    ensures Key(28, 0xc6e00bf3) && Key(29, 0xd5a79147) && Key(30, 0x06ca6351) && Key(31, 0x14292967)
  {
  }

  lemma Keys32()
    ensures Key(32, 0x27b70a85) && Key(33, 0x2e1b2138) && Key(34, 0x4d2c6dfc) && Key(35, 0x53380d13)
    ensures Key(36, 0x650a7354) && Key(37, 0x766a0abb) && Key(38, 0x81c2c92e) && Key(39, 0x92722c85)
    ensures Key(40, 0xa2bfe8a1) && Key(41, 0xa81a664b) && Key(42, 0xc24b8b70) && Key(43, 0xc76c51a3)
    ensures Key(44, 0xd192e819) && Key(45, 0xd6990624) && Key(46, 0xf40e3585) && Key(47, 0x106aa070)
  {
  }

  lemma Keys48()
    ensures Key(48, 0x19a4c116) && Key(49, 0x1e376c08) && Key(50, 0x2748774c) && Key(51, 0x34b0bcb5)
    ensures Key(52, 0x391c0cb3) && Key(53, 0x4ed8aa4a) && Key(54, 0x5b9cca4f) && Key(55, 0x682e6ff3)
    ensures Key(56, 0x748f82ee) && Key(57, 0x78a5636f) && Key(58, 0x84c87814) && Key(59, 0x8cc70208)
    ensures Key(60, 0x90befffa) && Key(61, 0xa4506ceb) && Key(62, 0xbef9a3f7) && Key(63, 0xc67178f2)
  {
  }

  // ---------- The schedules of the two blocks ----------

  lemma {:induction false} ZeroSchedule(t: nat)
    requires t <= 64
    ensures forall i :: 0 <= i < t ==> Schedule(Zeros(64), t)[i] == 0
  {
    if t != 0 {
      ZeroSchedule(t - 1);
      ZeroWord(Schedule(Zeros(64), t - 1));
    }
  }

  lemma ZeroWord(w: seq<word>)
    requires forall i :: 0 <= i < |w| ==> w[i] == 0
    ensures WordOf(0, 0, 0, 0) == 0 && (16 <= |w| ==> NextWord(w) == 0)
  {
    assert Following(0, 0, 0, 0) == 0;
  }

  /** The second block consists of zero words except for the first and the last one. */
  lemma BlockWord(w: seq<word>, t: nat)
    requires w == Schedule(SecondBlock(), 64) && t < 16
    ensures At(w, t, if t == 0 then 0x00800000 else if t == 15 then 0x00000208 else 0)
  {
    hide WordOf, NextWord, Zeros;
    var b := SecondBlock();
    ScheduleGrows(b, t + 1, 64);
    assert w[t] == w[..t + 1][t] == WordOf(b[4 * t], b[4 * t + 1], b[4 * t + 2], b[4 * t + 3]);
    FourBytes();
  }

  lemma Words0(w: seq<word>)
    requires w == Schedule(SecondBlock(), 64)
    ensures At(w, 0, 0x00800000) && At(w, 15, 0x00000208) && forall t: nat :: 0 < t < 15 ==> At(w, t, 0)
  {
    hide Schedule, SecondBlock, At;
    BlockWord(w, 0);
    BlockWord(w, 15);
    forall t: nat | 0 < t < 15
      ensures At(w, t, 0)
    {
      BlockWord(w, t);
    }
  }

  lemma FourBytes()
    ensures WordOf(0x00, 0x80, 0x00, 0x00) == 0x00800000 && WordOf(0x00, 0x00, 0x02, 0x08) == 0x00000208
    ensures WordOf(0x00, 0x00, 0x00, 0x00) == 0
  {
  }

  lemma Words16(w: seq<word>)
    requires w == Schedule(SecondBlock(), 64)
    ensures At(w, 16, 0x00800000) && At(w, 17, 0x01450000) && At(w, 18, 0x00002050) && At(w, 19, 0x200051ca)
    ensures At(w, 20, 0x14220008) && At(w, 21, 0x22d45414) && At(w, 22, 0x4000021d) && At(w, 23, 0xa1002025)
    ensures At(w, 24, 0x02a20800) && At(w, 25, 0x143e44f8) && At(w, 26, 0x6500fb51) && At(w, 27, 0xff080711)
    ensures At(w, 28, 0x85b03232) && At(w, 29, 0x43550481) && At(w, 30, 0xd1009ecc) && At(w, 31, 0x257366a9)
  {
    hide At, Schedule, SecondBlock;
    Words0(w);
    FourWords(SecondBlock(), w, 16, 0x00800000, 0x00000000, 0x00000000, 0x00000000, 0x00000000, 0x00000000,
              0x00000000, 0x00000000, 0x00000000, 0x00000000, 0x00000208, 0x00800000, 0x01450000, 0x00002050,
              0x200051ca);
    FourWords(SecondBlock(), w, 20, 0x00000000, 0x00000000, 0x00000000, 0x00000000, 0x00000000, 0x00000000,
              0x00000000, 0x00000208, 0x00800000, 0x00002050, 0x200051ca, 0x14220008, 0x22d45414, 0x4000021d,
              0xa1002025);
    FourWords(SecondBlock(), w, 24, 0x00000000, 0x00000000, 0x00000000, 0x00000000, 0x00000000, 0x01450000,
              0x00002050, 0x200051ca, 0x14220008, 0x4000021d, 0xa1002025, 0x02a20800, 0x143e44f8, 0x6500fb51,
              0xff080711);
    FourWords(SecondBlock(), w, 28, 0x00000000, 0x00000000, 0x00000000, 0x00000208, 0x00800000, 0x22d45414,
              0x4000021d, 0xa1002025, 0x02a20800, 0x6500fb51, 0xff080711, 0x85b03232, 0x43550481, 0xd1009ecc,
              0x257366a9);
  }

  lemma Words32(w: seq<word>)
    requires w == Schedule(SecondBlock(), 64)
    ensures At(w, 32, 0xb17421d0) && At(w, 33, 0xede2ea69) && At(w, 34, 0x1838bd97) && At(w, 35, 0x60a138fc)
    ensures At(w, 36, 0xda10905c) && At(w, 37, 0xe155d731) && At(w, 38, 0x16f24738) && At(w, 39, 0x260be1a2)
    ensures At(w, 40, 0xbf9558b8) && At(w, 41, 0x4a221fa7) && At(w, 42, 0x0ae250e9) && At(w, 43, 0x9e80238d)
    ensures At(w, 44, 0x153d8068) && At(w, 45, 0x14094ef5) && At(w, 46, 0xf6978b0b) && At(w, 47, 0x32e22a5b)
  {
    hide At, Schedule, SecondBlock;
    Words16(w);
    FourWords(SecondBlock(), w, 32, 0x00800000, 0x01450000, 0x00002050, 0x200051ca, 0x14220008, 0x143e44f8,
              0x6500fb51, 0xff080711, 0x85b03232, 0xd1009ecc, 0x257366a9, 0xb17421d0, 0xede2ea69, 0x1838bd97,
              0x60a138fc);
    FourWords(SecondBlock(), w, 36, 0x14220008, 0x22d45414, 0x4000021d, 0xa1002025, 0x02a20800, 0x43550481,
              0xd1009ecc, 0x257366a9, 0xb17421d0, 0x1838bd97, 0x60a138fc, 0xda10905c, 0xe155d731, 0x16f24738,
              0x260be1a2);
    FourWords(SecondBlock(), w, 40, 0x02a20800, 0x143e44f8, 0x6500fb51, 0xff080711, 0x85b03232, 0xede2ea69,
              0x1838bd97, 0x60a138fc, 0xda10905c, 0x16f24738, 0x260be1a2, 0xbf9558b8, 0x4a221fa7, 0x0ae250e9,
              0x9e80238d);
    FourWords(SecondBlock(), w, 44, 0x85b03232, 0x43550481, 0xd1009ecc, 0x257366a9, 0xb17421d0, 0xe155d731,
              0x16f24738, 0x260be1a2, 0xbf9558b8, 0x0ae250e9, 0x9e80238d, 0x153d8068, 0x14094ef5, 0xf6978b0b,
              0x32e22a5b);
  }

  lemma Words48(w: seq<word>)
    requires w == Schedule(SecondBlock(), 64)
    ensures At(w, 48, 0xa56d45d3) && At(w, 49, 0x4b8223c0) && At(w, 50, 0x7c1e5bb4) && At(w, 51, 0x524a8b4c)
    ensures At(w, 52, 0xdef1fe88) && At(w, 53, 0xd0063ddf) && At(w, 54, 0xc35d1ce1) && At(w, 55, 0xd57ce944)
    ensures At(w, 56, 0xf92d603d) && At(w, 57, 0xf773f68a) && At(w, 58, 0x796248b6) && At(w, 59, 0xb5b3ea01)
    ensures At(w, 60, 0x0dabe797) && At(w, 61, 0x4bd1103d) && At(w, 62, 0x95fdcf8f) && At(w, 63, 0xb8af1ed8)
  {
    hide At, Schedule, SecondBlock;
    Words32(w);
    FourWords(SecondBlock(), w, 48, 0xb17421d0, 0xede2ea69, 0x1838bd97, 0x60a138fc, 0xda10905c, 0x4a221fa7,
              0x0ae250e9, 0x9e80238d, 0x153d8068, 0xf6978b0b, 0x32e22a5b, 0xa56d45d3, 0x4b8223c0, 0x7c1e5bb4,
              0x524a8b4c);
    FourWords(SecondBlock(), w, 52, 0xda10905c, 0xe155d731, 0x16f24738, 0x260be1a2, 0xbf9558b8, 0x14094ef5,
              0xf6978b0b, 0x32e22a5b, 0xa56d45d3, 0x7c1e5bb4, 0x524a8b4c, 0xdef1fe88, 0xd0063ddf, 0xc35d1ce1,
              0xd57ce944);
    FourWords(SecondBlock(), w, 56, 0xbf9558b8, 0x4a221fa7, 0x0ae250e9, 0x9e80238d, 0x153d8068, 0x4b8223c0,
              0x7c1e5bb4, 0x524a8b4c, 0xdef1fe88, 0xc35d1ce1, 0xd57ce944, 0xf92d603d, 0xf773f68a, 0x796248b6,
              0xb5b3ea01);
    FourWords(SecondBlock(), w, 60, 0x153d8068, 0x14094ef5, 0xf6978b0b, 0x32e22a5b, 0xa56d45d3, 0xd0063ddf,
              0xc35d1ce1, 0xd57ce944, 0xf92d603d, 0x796248b6, 0xb5b3ea01, 0x0dabe797, 0x4bd1103d, 0x95fdcf8f,
              0xb8af1ed8);
  }

  // ---------- The rounds of the two blocks ----------

  lemma NoRounds(s: Words, w: seq<word>)
    requires |w| == 64
    ensures After(s, w, 0, s)
  {
  }

  ghost predicate AllZero(w: seq<word>) { |w| == 64 && forall t: nat :: t < 64 ==> At(w, t, 0) }

  lemma First0(w: seq<word>)
    requires AllZero(w)
    ensures After(INITIAL, w, 16,
                  Words(0x1f951eb2, 0xd22264c0, 0x3acde607, 0x4640cdd5,
                        0xf3161690, 0x7efa870c, 0xc5c6eedf, 0x5f0deb7a))
  {
    hide Key, At, After;
    NoRounds(INITIAL, w);
    Keys0();
    FourRounds(INITIAL, w, 0,
               0x6a09e667, 0xbb67ae85, 0x3c6ef372, 0xa54ff53a, 0x510e527f, 0x9b05688c, 0x1f83d9ab, 0x5be0cd19,
               0x428a2f98, 0, 0xfc08884d, 0x98c7e2a2, 0x71374491, 0, 0x7ad96290, 0x9df1b216,
               0xb5c0fbcf, 0, 0xf3dd6c3f, 0xc57b68fb, 0xe9b5dba5, 0, 0x0a24b1aa, 0x909cf5c9);
    FourRounds(INITIAL, w, 4,
               0x0a24b1aa, 0xf3dd6c3f, 0x7ad96290, 0xfc08884d, 0x909cf5c9, 0xc57b68fb, 0x9df1b216, 0x98c7e2a2,
               0x3956c25b, 0, 0x489fc27e, 0x2cab14aa, 0x59f111f1, 0, 0x6bb2da87, 0x9d120f96,
               0x923f82a4, 0, 0x965ecae2, 0x79c76dda, 0xab1c5ed5, 0, 0x5e498fb3, 0x9426ec60);
    FourRounds(INITIAL, w, 8,
               0x5e498fb3, 0x965ecae2, 0x6bb2da87, 0x489fc27e, 0x9426ec60, 0x79c76dda, 0x9d120f96, 0x2cab14aa,
               0xd807aa98, 0, 0x258e85ba, 0x839d20bc, 0x12835b01, 0, 0x87dd269e, 0x3e9d0be7,
               0x243185be, 0, 0xb8b7c158, 0x65aff72f, 0x550c7dc3, 0, 0xc0dee80e, 0x7d9b9b1d);
    FourRounds(INITIAL, w, 12,
               0xc0dee80e, 0xb8b7c158, 0x87dd269e, 0x258e85ba, 0x7d9b9b1d, 0x65aff72f, 0x3e9d0be7, 0x839d20bc,
               0x72be5d74, 0, 0x4640cdd5, 0x5f0deb7a, 0x80deb1fe, 0, 0x3acde607, 0xc5c6eedf,
               0x9bdc06a7, 0, 0xd22264c0, 0x7efa870c, 0xc19bf174, 0, 0x1f951eb2, 0xf3161690);
  }

  lemma First16(w: seq<word>)
    requires AllZero(w)
    ensures After(INITIAL, w, 32,
                  Words(0x5edcac07, 0xd63659f5, 0x370ce121, 0x9e161da9,
                        0xf4983bb6, 0xd3ec2dbf, 0x6c057621, 0x21e11719))
  {
    hide Key, At, After;
    First0(w);
    Keys16();
    FourRounds(INITIAL, w, 16,
               0x1f951eb2, 0xd22264c0, 0x3acde607, 0x4640cdd5, 0xf3161690, 0x7efa870c, 0xc5c6eedf, 0x5f0deb7a,
               0xe49b69c1, 0, 0x15ea9067, 0x1b968440, 0xefbe4786, 0, 0x73d7f239, 0xab002c44,
               0x0fc19dc6, 0, 0xaecf98b4, 0xd623e343, 0x240ca1cc, 0, 0x21ce99d5, 0x391fe568);
    FourRounds(INITIAL, w, 20,
               0x21ce99d5, 0xaecf98b4, 0x73d7f239, 0x15ea9067, 0x391fe568, 0xd623e343, 0xab002c44, 0x1b968440,
               0x2de92c6f, 0, 0x3e2317a3, 0x738012cf, 0x4a7484aa, 0, 0x7c60fbe3, 0xc2999c5f,
               0x5cb0a9dc, 0, 0x26e60522, 0x1566b1e5, 0x76f988da, 0, 0xa5681bb2, 0x50185f01);
    FourRounds(INITIAL, w, 24,
               0xa5681bb2, 0x26e60522, 0x7c60fbe3, 0x3e2317a3, 0x50185f01, 0x1566b1e5, 0xc2999c5f, 0x738012cf,
               0x983e5152, 0, 0x8087db3a, 0xc5a8f002, 0xa831c66d, 0, 0xa5cf0091, 0x16b0c850,
               0xb00327c8, 0, 0x141ab25e, 0x4334f303, 0xbf597fc7, 0, 0x8f16d9e7, 0x32afef6d);
    FourRounds(INITIAL, w, 28,
               0x8f16d9e7, 0x141ab25e, 0xa5cf0091, 0x8087db3a, 0x32afef6d, 0x4334f303, 0x16b0c850, 0xc5a8f002,
               0xc6e00bf3, 0, 0x9e161da9, 0x21e11719, 0xd5a79147, 0, 0x370ce121, 0x6c057621,
               0x06ca6351, 0, 0xd63659f5, 0xd3ec2dbf, 0x14292967, 0, 0x5edcac07, 0xf4983bb6);
  }

  lemma First32(w: seq<word>)
    requires AllZero(w)
    ensures After(INITIAL, w, 48,
                  Words(0xb896f08c, 0x0043f8a0, 0x11a7f01d, 0x4673e127,
                        0x3406be47, 0xb3261902, 0xd3afe0ad, 0xe268250c))
  {
    hide Key, At, After;
    First16(w);
    Keys32();
    FourRounds(INITIAL, w, 32,
               0x5edcac07, 0xd63659f5, 0x370ce121, 0x9e161da9, 0xf4983bb6, 0xd3ec2dbf, 0x6c057621, 0x21e11719,
               0x27b70a85, 0, 0x1e9161ac, 0xa14cd591, 0x2e1b2138, 0, 0x8d7b2972, 0x16b18454,
               0x4d2c6dfc, 0, 0xa6842a6d, 0x5971ef8c, 0x53380d13, 0, 0x291dbe19, 0xcf03b894);
    FourRounds(INITIAL, w, 36,
               0x291dbe19, 0xa6842a6d, 0x8d7b2972, 0x1e9161ac, 0xcf03b894, 0x5971ef8c, 0x16b18454, 0xa14cd591,
               0x650a7354, 0, 0x9a1608e3, 0x3f13fc47, 0x766a0abb, 0, 0x9e33dff5, 0x87e0021e,
               0x81c2c92e, 0, 0xe57e5397, 0x9a8b0ef8, 0x92722c85, 0, 0xbcea14c8, 0xab229668);
    FourRounds(INITIAL, w, 40,
               0xbcea14c8, 0xe57e5397, 0x9e33dff5, 0x9a1608e3, 0xab229668, 0x9a8b0ef8, 0x87e0021e, 0x3f13fc47,
               0xa2bfe8a1, 0, 0x4d2f5e2a, 0x099ecea7, 0xa81a664b, 0, 0x1f6d7896, 0xf0d1ea3d,
               0xc24b8b70, 0, 0x550b15f7, 0x26900fd1, 0xc76c51a3, 0, 0x46c63a16, 0x4fd141b7);
    FourRounds(INITIAL, w, 44,
               0x46c63a16, 0x550b15f7, 0x1f6d7896, 0x4d2f5e2a, 0x4fd141b7, 0x26900fd1, 0xf0d1ea3d, 0x099ecea7,
               0xd192e819, 0, 0x4673e127, 0xe268250c, 0xd6990624, 0, 0x11a7f01d, 0xd3afe0ad,
               0xf40e3585, 0, 0x0043f8a0, 0xb3261902, 0x106aa070, 0, 0xb896f08c, 0x3406be47);
  }

  lemma First48(w: seq<word>)
    requires AllZero(w)
    ensures After(INITIAL, w, 64,
                  Words(0x704cb257, 0x5c5205e4, 0x25c46427, 0xd24fc990,
                        0x3bd78212, 0x25ccf9b7, 0x9b7b203f, 0xbc56dcbf))
  {
    hide Key, At, After;
    First32(w);
    Keys48();
    FourRounds(INITIAL, w, 48,
               0xb896f08c, 0x0043f8a0, 0x11a7f01d, 0x4673e127, 0x3406be47, 0xb3261902, 0xd3afe0ad, 0xe268250c,
               0x19a4c116, 0, 0xc9303382, 0x0d99d9a7, 0x1e376c08, 0, 0x82f02b5c, 0x1df0dcb4,
               0x2748774c, 0, 0x0a455585, 0xc6e3ab3c, 0x34b0bcb5, 0, 0xe2666753, 0x149e10f9);
    FourRounds(INITIAL, w, 52,
               0xe2666753, 0x0a455585, 0x82f02b5c, 0xc9303382, 0x149e10f9, 0xc6e3ab3c, 0x1df0dcb4, 0x0d99d9a7,
               0x391c0cb3, 0, 0xe7117664, 0xd2417d23, 0x4ed8aa4a, 0, 0x3e7a6340, 0x0fea20c9,
               0x5b9cca4f, 0, 0xdf67aa36, 0x07282c81, 0x682e6ff3, 0, 0xcc9b24f4, 0x36c65f16);
    FourRounds(INITIAL, w, 56,
               0xcc9b24f4, 0xdf67aa36, 0x3e7a6340, 0xe7117664, 0x36c65f16, 0x07282c81, 0x0fea20c9, 0xd2417d23,
               0x748f82ee, 0, 0x85ba18d0, 0x163cedea, 0x78a5636f, 0, 0x8845a542, 0xe97af59c,
               0x84c87814, 0, 0x4b1ae547, 0xff574951, 0x8cc70208, 0, 0x8ff307f7, 0x40098aff);
    FourRounds(INITIAL, w, 60,
               0x8ff307f7, 0x4b1ae547, 0x8845a542, 0x85ba18d0, 0x40098aff, 0xff574951, 0xe97af59c, 0x163cedea,
               0x90befffa, 0, 0xd24fc990, 0xbc56dcbf, 0xa4506ceb, 0, 0x25c46427, 0x9b7b203f,
               0xbef9a3f7, 0, 0x5c5205e4, 0x25ccf9b7, 0xc67178f2, 0, 0x704cb257, 0x3bd78212);
  }

  lemma Second0(w: seq<word>)
    requires w == Schedule(SecondBlock(), 64)
    ensures After(MIDDLE, w, 16,
                  Words(0x54837582, 0xcc97198e, 0x1a943098, 0xc164c913,
                        0x9451d352, 0xcea089a3, 0xba94b228, 0x034b5006))
  {
    hide Key, At, After, Schedule, SecondBlock;
    NoRounds(MIDDLE, w);
    Keys0();
    Words0(w);
    FourRounds(MIDDLE, w, 0,
               0xda5698be, 0x17b9b469, 0x62335799, 0x779fbeca, 0x8ce5d491, 0xc0d26243, 0xbafef9ea, 0x1837a9d8,
               0x428a2f98, 0x00800000, 0x3039aab4, 0x2ca444d3, 0x71374491, 0, 0x4f610575, 0xe05568b2,
               0xb5c0fbcf, 0, 0xf17ab140, 0xb25aed8d, 0xe9b5dba5, 0, 0x9bafc4ee, 0xa7f097f8);
    FourRounds(MIDDLE, w, 4,
               0x9bafc4ee, 0xf17ab140, 0x4f610575, 0x3039aab4, 0xa7f097f8, 0xb25aed8d, 0xe05568b2, 0x2ca444d3,
               0x3956c25b, 0, 0x4809d065, 0x5e4b5f8a, 0x59f111f1, 0, 0xadc9c545, 0x2d9558df,
               0x923f82a4, 0, 0x70cfa646, 0x72768979, 0xab1c5ed5, 0, 0x6a30b869, 0x0c7d42e3);
    FourRounds(MIDDLE, w, 8,
               0x6a30b869, 0x70cfa646, 0xadc9c545, 0x4809d065, 0x0c7d42e3, 0x72768979, 0x2d9558df, 0x5e4b5f8a,
               0xd807aa98, 0, 0x0b28ac40, 0x8f41fe29, 0x12835b01, 0, 0xad28110a, 0x2e4db796,
               0x243185be, 0, 0xe0453a15, 0xa290e05d, 0x550c7dc3, 0, 0x2b981153, 0x304a768f);
    FourRounds(MIDDLE, w, 12,
               0x2b981153, 0xe0453a15, 0xad28110a, 0x0b28ac40, 0x304a768f, 0xa290e05d, 0x2e4db796, 0x8f41fe29,
               0x72be5d74, 0, 0xc164c913, 0x034b5006, 0x80deb1fe, 0, 0x1a943098, 0xba94b228,
               0x9bdc06a7, 0, 0xcc97198e, 0xcea089a3, 0xc19bf174, 0x00000208, 0x54837582, 0x9451d352);
  }

  lemma Second16(w: seq<word>)
    requires w == Schedule(SecondBlock(), 64)
    ensures After(MIDDLE, w, 32,
                  Words(0x03781cf5, 0x15aecbf9, 0x59c71d4f, 0x0d53fe9e,
                        0x160d1799, 0xdf51e563, 0x1ad0a429, 0x9c37b0a8))
  {
    hide Key, At, After, Schedule, SecondBlock;
    Second0(w);
    Keys16();
    Words16(w);
    FourRounds(MIDDLE, w, 16,
               0x54837582, 0xcc97198e, 0x1a943098, 0xc164c913, 0x9451d352, 0xcea089a3, 0xba94b228, 0x034b5006,
               0xe49b69c1, 0x00800000, 0x315160e1, 0x613a8841, 0xefbe4786, 0x01450000, 0x2e873148, 0xe5a999e8,
               0x0fc19dc6, 0x00002050, 0x6bcb03c2, 0x66b912bf, 0x240ca1cc, 0x200051ca, 0x09bb8572, 0x898d422d);
    FourRounds(MIDDLE, w, 20,
               0x09bb8572, 0x6bcb03c2, 0x2e873148, 0x315160e1, 0x898d422d, 0x66b912bf, 0xe5a999e8, 0x613a8841,
               0x2de92c6f, 0x14220008, 0xb09bc8f1, 0x6e76c3ea, 0x4a7484aa, 0x22d45414, 0xb939d7d5, 0x799cd70b,
               0x5cb0a9dc, 0x4000021d, 0xdfdaf830, 0x5a2d4b22, 0x76f988da, 0xa1002025, 0x70986d33, 0x23279610);
    FourRounds(MIDDLE, w, 24,
               0x70986d33, 0xdfdaf830, 0xb939d7d5, 0xb09bc8f1, 0x23279610, 0x5a2d4b22, 0x799cd70b, 0x6e76c3ea,
               0x983e5152, 0x02a20800, 0x42faa280, 0x25f41bf3, 0xa831c66d, 0x143e44f8, 0x3b4a72ac, 0xb372a3d3,
               0xb00327c8, 0x6500fb51, 0x43e52bc5, 0xfe6bcb40, 0xbf597fc7, 0xff080711, 0xd1e9d661, 0x641be039);
    FourRounds(MIDDLE, w, 28,
               0xd1e9d661, 0x43e52bc5, 0x3b4a72ac, 0x42faa280, 0x641be039, 0xfe6bcb40, 0xb372a3d3, 0x25f41bf3,
               0xc6e00bf3, 0x85b03232, 0x0d53fe9e, 0x9c37b0a8, 0xd5a79147, 0x43550481, 0x59c71d4f, 0x1ad0a429,
               0x06ca6351, 0xd1009ecc, 0x15aecbf9, 0xdf51e563, 0x14292967, 0x257366a9, 0x03781cf5, 0x160d1799);
  }

  lemma Second32(w: seq<word>)
    requires w == Schedule(SecondBlock(), 64)
    ensures After(MIDDLE, w, 48,
                  Words(0x4ef36b9a, 0x3e5ba354, 0x39c4a867, 0xe1f80bd3,
                        0x2e47e048, 0xa382e739, 0xcb4a12d0, 0xb67d497d))
  {
    hide Key, At, After, Schedule, SecondBlock;
    Second16(w);
    Keys32();
    Words32(w);
    FourRounds(MIDDLE, w, 32,
               0x03781cf5, 0x15aecbf9, 0x59c71d4f, 0x0d53fe9e, 0x160d1799, 0xdf51e563, 0x1ad0a429, 0x9c37b0a8,
               0x27b70a85, 0xb17421d0, 0x7f19a282, 0x3379ba33, 0x2e1b2138, 0xede2ea69, 0x4fe6bbe3, 0xa515b4b0,
               0x4d2c6dfc, 0x1838bd97, 0x3bb0883a, 0x6bda3c5e, 0x53380d13, 0x60a138fc, 0xa7621262, 0x1e0c6d51);
    FourRounds(MIDDLE, w, 36,
               0xa7621262, 0x3bb0883a, 0x4fe6bbe3, 0x7f19a282, 0x1e0c6d51, 0x6bda3c5e, 0xa515b4b0, 0x3379ba33,
               0x650a7354, 0xda10905c, 0xe882a301, 0x8535760c, 0x766a0abb, 0xe155d731, 0xe929e5bb, 0x24ca3405,
               0x81c2c92e, 0x16f24738, 0x6ce7ffc4, 0x4f720556, 0x92722c85, 0x260be1a2, 0x0951eff4, 0x4d2a9158);
    FourRounds(MIDDLE, w, 40,
               0x0951eff4, 0x6ce7ffc4, 0xe929e5bb, 0xe882a301, 0x4d2a9158, 0x4f720556, 0x24ca3405, 0x8535760c,
               0xa2bfe8a1, 0xbf9558b8, 0xd8905136, 0x1d6522ec, 0xa81a664b, 0x4a221fa7, 0x8d481913, 0xaec9f32d,
               0xc24b8b70, 0x0ae250e9, 0xb6f4e7b7, 0x8ee26c14, 0xc76c51a3, 0x9e80238d, 0x94e76af6, 0xfdcab922);
    FourRounds(MIDDLE, w, 44,
               0x94e76af6, 0xb6f4e7b7, 0x8d481913, 0xd8905136, 0xfdcab922, 0x8ee26c14, 0xaec9f32d, 0x1d6522ec,
               0xd192e819, 0x153d8068, 0xe1f80bd3, 0xb67d497d, 0xd6990624, 0x14094ef5, 0x39c4a867, 0xcb4a12d0,
               0xf40e3585, 0xf6978b0b, 0x3e5ba354, 0xa382e739, 0x106aa070, 0x32e22a5b, 0x4ef36b9a, 0x2e47e048);
  }

  lemma Second48(w: seq<word>)
    requires w == Schedule(SecondBlock(), 64)
    ensures After(MIDDLE, w, 64,
                  Words(0xbe77aa20, 0xd7981f99, 0x07a1eb5c, 0xb9ac3062,
                        0xe782ff70, 0xec8b22d3, 0xd0fbbad6, 0xf857cc1f))
  {
    hide Key, At, After, Schedule, SecondBlock;
    Second32(w);
    Keys48();
    Words48(w);
    FourRounds(MIDDLE, w, 48,
               0x4ef36b9a, 0x3e5ba354, 0x39c4a867, 0xe1f80bd3, 0x2e47e048, 0xa382e739, 0xcb4a12d0, 0xb67d497d,
               0x19a4c116, 0xa56d45d3, 0xa47ba604, 0x44df423b, 0x1e376c08, 0x4b8223c0, 0xc845fec3, 0xdbeb2b49,
               0x2748774c, 0x7c1e5bb4, 0x47e312a7, 0xa5d694bb, 0x34b0bcb5, 0x524a8b4c, 0x96a444d9, 0x58ab933e);
    FourRounds(MIDDLE, w, 52,
               0x96a444d9, 0x47e312a7, 0xc845fec3, 0xa47ba604, 0x58ab933e, 0xa5d694bb, 0xdbeb2b49, 0x44df423b,
               0x391c0cb3, 0xdef1fe88, 0x456c4314, 0x508bd007, 0x4ed8aa4a, 0xd0063ddf, 0x49c39309, 0x112fe485,
               0x5b9cca4f, 0xc35d1ce1, 0x3acbfb22, 0x78543ab7, 0x682e6ff3, 0xd57ce944, 0x0a154247, 0xde9e13a4);
    FourRounds(MIDDLE, w, 56,
               0x0a154247, 0x3acbfb22, 0x49c39309, 0x456c4314, 0xde9e13a4, 0x78543ab7, 0x112fe485, 0x508bd007,
               0x748f82ee, 0xf92d603d, 0x50df12d0, 0x05d366ce, 0x78a5636f, 0xf773f68a, 0x20213f79, 0x50077d31,
               0x84c87814, 0x796248b6, 0x9d40a460, 0xa0bae2da, 0x8cc70208, 0xb5b3ea01, 0xaa0a6d20, 0x9d19378f);
    FourRounds(MIDDLE, w, 60,
               0xaa0a6d20, 0x9d40a460, 0x20213f79, 0x50df12d0, 0x9d19378f, 0xa0bae2da, 0x50077d31, 0x05d366ce,
               0x90befffa, 0x0dabe797, 0xb9ac3062, 0xf857cc1f, 0xa4506ceb, 0x4bd1103d, 0x07a1eb5c, 0xd0fbbad6,
               0xbef9a3f7, 0x95fdcf8f, 0xd7981f99, 0xec8b22d3, 0xc67178f2, 0xb8af1ed8, 0xbe77aa20, 0xe782ff70);
  }

  // ---------- The digest ----------

  lemma FirstCompression()
    ensures Compress(INITIAL, Zeros(64)) == MIDDLE
  {
    hide Rounds, Round, Schedule;
    var w := Schedule(Zeros(64), 64);
    ZeroSchedule(64);
    First48(w);
  }

  lemma SecondCompression()
    ensures Compress(MIDDLE, SecondBlock()) == DIGEST
  {
    hide Rounds, Round, Schedule;
    Second48(Schedule(SecondBlock(), 64));
  }


  lemma PaddedMessage()
    ensures Pad(Zeros(65)) == Zeros(64) + SecondBlock()
  {
    hide BigEndian64;
    LengthBytes();
    assert Zeros(65) == Zeros(64) + [0];
    assert SecondBlock() == [0x00] + [0x80] + Zeros(54) + [0, 0, 0, 0, 0, 0, 2, 8];
  }

  lemma LengthBytes()
    ensures BigEndian64((8 * 65) % UINT64) == [0, 0, 0, 0, 0, 0, 2, 8]
  {
    hide LengthByte;
    LengthByteOf520(0);
    LengthByteOf520(1);
    LengthByteOf520(2);
    LengthByteOf520(3);
    LengthByteOf520(4);
    LengthByteOf520(5);
    LengthByteOf520(6);
    LengthByteOf520(7);
  }

  lemma LengthByteOf520(k: nat)
    ensures LengthByte(520, k) == if k == 0 then 8 else if k == 1 then 2 else 0
  {
    hide LengthByte;
    LengthByteStep(520, k);
    if k != 0 {
      LengthByteStep(2, k - 1);
      if k != 1 {
        NoLength(k - 2);
      }
    }
  }

  lemma LengthByteStep(n: nat, k: nat)
    ensures LengthByte(n, k) == if k == 0 then (n % 256) as octet else LengthByte(n / 256, k - 1)
  {
  }

  lemma {:induction false} NoLength(k: nat)
    ensures LengthByte(0, k) == 0
  {
    if k != 0 {
      NoLength(k - 1);
    }
  }

  /** The digest of 65 zero bytes. */
  lemma DigestOfZeros()
    ensures Digest(Zeros(65)) == DigestBytes(DIGEST)
    ensures Digest(Zeros(65))[0] == 0x98
  {
    hide Compress, Pad, Blocks, SecondBlock, ByteAt;
    PaddedMessage();
    NoBlocks();
    BlocksStep([], Zeros(64));
    BlocksStep(Zeros(64), SecondBlock());
    assert [] + Zeros(64) == Zeros(64);
    FirstCompression();
    SecondCompression();
    FirstByte();
  }

  lemma NoBlocks()
    ensures Blocks([]) == INITIAL
  {
  }

  lemma FirstByte()
    ensures ByteAt(0x98ce42de, 0) == 0x98
  {
    assert ByteAt(0x98ce42de, 0) == ByteAt(0x98ce42, 1) == ByteAt(0x98ce, 2) == ByteAt(0x98, 3);
  }
}