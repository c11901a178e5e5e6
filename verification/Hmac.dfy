/** HMAC (section 2 of RFC 2104) and HKDF (sections 2.2 and 2.3 of RFC 5869) over SHA-256. */
module HmacStandard {
  import opened Sha256Standard

  function Mask(k: seq<octet>, pad: octet): (r: seq<octet>)
    ensures |r| == |k|
  {
    seq(|k|, i requires 0 <= i < |k| => k[i] ^ pad)
  }

  /** The key brought to the 64 bytes of a block: a longer key is hashed first. */
  function KeyBlock(key: seq<octet>): (k: seq<octet>)
    ensures |k| == 64
  {
    if |key| <= 64 then key + Zeros(64 - |key|) else Digest(key) + Zeros(32)
  }

  function HmacOfBlock(block: seq<octet>, text: seq<octet>): (mac: seq<octet>)
    ensures |mac| == 32
  {
    Digest(Mask(block, 0x5c) + Digest(Mask(block, 0x36) + text))
  }

  function Hmac(key: seq<octet>, text: seq<octet>): (mac: seq<octet>)
    ensures |mac| == 32
  {
    HmacOfBlock(KeyBlock(key), text)
  }

  /** T(i), whose last input octet is `i`. */
  function T(prk: seq<octet>, info: seq<octet>, i: nat): (t: seq<octet>)
    requires i <= 255
    ensures |t| == if i == 0 then 0 else 32
  {
    if i == 0 then [] else Hmac(prk, T(prk, info, i - 1) + info + [i as octet])
  }

  /** T(1) | ... | T(n) */
  function Expanded(prk: seq<octet>, info: seq<octet>, n: nat): (s: seq<octet>)
    requires n <= 255
    ensures |s| == 32 * n
  {
    if n == 0 then [] else Expanded(prk, info, n - 1) + T(prk, info, n)
  }

  /** The first `length` octets of the output keying material. */
  function Hkdf(salt: seq<octet>, ikm: seq<octet>, info: seq<octet>, length: nat): (okm: seq<octet>)
    requires length <= 255 * 32
    ensures |okm| == length
  {
    Expanded(Hmac(salt, ikm), info, (length + 31) / 32)[..length]
  }
}

/** The server's HmacSha256 and HkdfSha256. */
module HmacServer {
  import opened Sha256Standard
  import opened Sha256Stream
  import opened Sha256Example
  import opened HmacStandard
  import HmacExample

  /**
   The key that the server's code really uses. For a key of more than 64 bytes
   it hashes the key into the block, sets the length to 32, and then copies the
   first 32 bytes of the key itself over the hash.
   */
  function EffectiveKey(key: seq<octet>): seq<octet> {
    if |key| <= 64 then key else key[..32]
  }

  method Sha256Digest(data: seq<octet>, out: array<octet>)
    requires out.Length == 32
    modifies out
    ensures out[..] == Digest(data)
  {
    hide *;
    var ctx := new Sha256State();
    ctx.Update(data);
    assert [] + data == data;
    ctx.Final(out);
  }

  /** One of the two hashes of HmacSha256, fed in two calls. */
  method Sha256DigestOfTwo(first: seq<octet>, second: seq<octet>, out: array<octet>)
    requires out.Length == 32
    modifies out
    ensures out[..] == Digest(first + second)
  {
    hide *;
    var ctx := new Sha256State();
    ctx.Update(first);
    ctx.Update(second);
    assert [] + first + second == first + second;
    ctx.Final(out);
  }

  method HmacSha256(key: seq<octet>, data: seq<octet>, out: array<octet>)
    requires out.Length == 32
    modifies out
    ensures out[..] == Hmac(EffectiveKey(key), data)
    ensures key == HmacExample.KEY && data == HmacExample.TEXT ==> out[..] == HmacExample.CODE
  {
    hide Digest, KeyBlock, Mask;
    HmacExample.CodeOfExample();
    assert |HmacExample.KEY| == 4;
    var block := BuildKeyBlock(key);
    var oKey, iKey := MaskKeys(block);
    var innerHash := new octet[32];
    Sha256DigestOfTwo(iKey[..], data, innerHash);
    Sha256DigestOfTwo(oKey[..], innerHash[..], out);
  }

  method MaskKeys(block: array<octet>) returns (oKey: array<octet>, iKey: array<octet>)
    requires block.Length == 64
    ensures fresh(oKey) && fresh(iKey) && oKey.Length == iKey.Length == 64
    ensures oKey[..] == Mask(block[..], 0x5c) && iKey[..] == Mask(block[..], 0x36)
  {
    hide Mask;
    oKey, iKey := new octet[64], new octet[64];
    MaskNothing(block[..], 0x5c);
    MaskNothing(block[..], 0x36);
    for i := 0 to 64
      invariant oKey[..i] == Mask(block[..], 0x5c)[..i]
      invariant iKey[..i] == Mask(block[..], 0x36)[..i]
    {
      oKey[i] := block[i] ^ 0x5c;
      iKey[i] := block[i] ^ 0x36;
      MaskAt(block[..], 0x5c, i);
      MaskAt(block[..], 0x36, i);
    }
    assert oKey[..64] == oKey[..] && iKey[..64] == iKey[..];
  }

  lemma MaskNothing(k: seq<octet>, pad: octet)
    ensures Mask(k, pad)[..0] == []
  {
  }

  lemma MaskAt(k: seq<octet>, pad: octet, i: nat)
    requires i < |k|
    ensures Mask(k, pad)[i] == k[i] ^ pad
  {
  }

  method BuildKeyBlock(key: seq<octet>) returns (block: array<octet>)
    ensures fresh(block) && block.Length == 64
    ensures block[..] == KeyBlock(EffectiveKey(key))
  {
    hide Digest;
    block := new octet[64](_ => 0);
    var keyLen := |key|;
    if keyLen > 64 {
      var hash := new octet[32];
      Sha256Digest(key, hash);
      for i := 0 to 32
        invariant forall j :: i <= j < 64 ==> block[j] == 0
      {
        block[i] := hash[i];
      }
      keyLen := 32;
    }
    for i := 0 to keyLen
      invariant forall j :: 0 <= j < i ==> block[j] == key[j]
      invariant forall j :: keyLen <= j < 64 ==> block[j] == 0
    {
      block[i] := key[i];
    }
  }

  /** The output of the loop of HkdfSha256, block by block; the counter is a uint8_t. */
  function ServerT(prk: seq<octet>, info: seq<octet>, i: nat): (t: seq<octet>)
    ensures |t| == if i == 0 then 0 else 32
  {
    if i == 0 then [] else Hmac(prk, ServerT(prk, info, i - 1) + info + [(i % 256) as octet])
  }

  function ServerExpanded(prk: seq<octet>, info: seq<octet>, n: nat): (s: seq<octet>)
    ensures |s| == 32 * n
  {
    if n == 0 then [] else ServerExpanded(prk, info, n - 1) + ServerT(prk, info, n)
  }

  function ServerHkdf(salt: seq<octet>, ikm: seq<octet>, info: seq<octet>, length: nat): (okm: seq<octet>)
    ensures |okm| == length
  {
    ServerExpanded(Hmac(EffectiveKey(salt), ikm), info, (length + 31) / 32)[..length]
  }

  method HkdfSha256(ikm: seq<octet>, salt: seq<octet>, info: seq<octet>, out: array<octet>)
    modifies out
    ensures out[..] == ServerHkdf(salt, ikm, info, out.Length)
  {
    hide Hmac, ServerExpanded;
    var prk := new octet[32];
    HmacSha256(salt, ikm, prk);
    Expand(prk[..], info, out);
  }

  /** The loop of HkdfSha256. */
  method Expand(prk: seq<octet>, info: seq<octet>, out: array<octet>)
    requires |prk| == 32
    modifies out
    ensures out[..] == ServerExpanded(prk, info, (out.Length + 31) / 32)[..out.Length]
  {
    hide Hmac, ServerT, ServerExpanded;
    var t, tLen := new octet[32], 0;
    var counter := 1;
    var offset := 0;
    ghost var n := 0;
    NothingExpanded(prk, info);
    while offset < out.Length
      invariant counter == (n + 1) % 256 && tLen <= 32
      invariant offset == if 32 * n <= out.Length then 32 * n else out.Length
      invariant n <= (out.Length + 31) / 32
      invariant t[..tLen] == ServerT(prk, info, n)
      invariant out[..offset] == ServerExpanded(prk, info, n)[..offset]
      decreases out.Length - offset
    {
      var toCopy := ExpandStep(prk, t, tLen, info, counter, out, offset, n);
      CounterStep(n);
      tLen := 32;
      n := n + 1;
      offset := offset + toCopy;
      counter := (counter + 1) % 256;
    }
    assert out[..offset] == out[..];
  }

  /** One turn of the loop: the block, and its bytes behind the earlier ones. */
  method ExpandStep(prk: seq<octet>, t: array<octet>, tLen: nat, info: seq<octet>, counter: nat,
                    out: array<octet>, offset: nat, ghost n: nat) returns (toCopy: nat)
    requires |prk| == 32 && t.Length == 32 && tLen <= 32 && counter == (n + 1) % 256 && t != out
    requires offset == 32 * n < out.Length && t[..tLen] == ServerT(prk, info, n)
    requires out[..offset] == ServerExpanded(prk, info, n)[..offset]
    modifies t, out
    ensures toCopy == if out.Length - offset < 32 then out.Length - offset else 32
    ensures t[..32] == ServerT(prk, info, n + 1)
    ensures out[..offset + toCopy] == ServerExpanded(prk, info, n + 1)[..offset + toCopy]
  {
    hide Hmac, ServerT, ServerExpanded;
    ServerExpandedStep(prk, info, n);
    toCopy := HkdfBlock(prk, t, tLen, info, counter, out, offset);
    ServerExpandedPrefix(prk, info, n, toCopy);
  }

  /** The body of the loop: the next block T(i), and as much of it as still fits. */
  method HkdfBlock(prk: seq<octet>, t: array<octet>, tLen: nat, info: seq<octet>, counter: nat,
                   out: array<octet>, offset: nat) returns (toCopy: nat)
    requires |prk| == 32 && t.Length == 32 && tLen <= 32 && counter < 256 && offset < out.Length && t != out
    modifies t, out
    ensures t[..] == t[..32] == Hmac(prk, old(t[..tLen]) + info + [counter as octet])
    ensures toCopy == if out.Length - offset < 32 then out.Length - offset else 32
    ensures out[..offset + toCopy] == old(out[..offset]) + t[..toCopy]
  {
    hide Hmac;
    HmacSha256(prk, t[..tLen] + info + [counter as octet], t);
    toCopy := if out.Length - offset < t.Length then out.Length - offset else t.Length;
    CopyAt(out, offset, t[..], toCopy);
    assert out[..offset + toCopy] == out[..offset] + out[offset..offset + toCopy];
  }

  lemma CounterStep(n: nat)
    ensures ((n + 1) % 256 + 1) % 256 == (n + 2) % 256
  {
  }

  lemma NothingExpanded(prk: seq<octet>, info: seq<octet>)
    ensures ServerT(prk, info, 0) == ServerExpanded(prk, info, 0) == []
  {
  }

  lemma ServerExpandedPrefix(prk: seq<octet>, info: seq<octet>, n: nat, c: nat)
    requires c <= 32
    ensures ServerExpanded(prk, info, n + 1)[..32 * n + c] ==
            ServerExpanded(prk, info, n)[..32 * n] + ServerT(prk, info, n + 1)[..c]
  {
    hide ServerT;
  }

  lemma ServerExpandedStep(prk: seq<octet>, info: seq<octet>, n: nat)
    ensures ServerT(prk, info, n + 1) == Hmac(prk, ServerT(prk, info, n) + info + [((n + 1) % 256) as octet])
    ensures ServerExpanded(prk, info, n + 1) == ServerExpanded(prk, info, n) + ServerT(prk, info, n + 1)
  {
    hide Hmac;
  }

  /** memcpy of the first `count` bytes of `src` to `dst + offset`. */
  method CopyAt(dst: array<octet>, offset: nat, src: seq<octet>, count: nat)
    requires count <= |src| && offset + count <= dst.Length
    modifies dst
    ensures dst[..offset] == old(dst[..offset])
    ensures dst[offset..offset + count] == src[..count]
    ensures dst[offset + count..] == old(dst[offset + count..])
  {
    for i := 0 to count
      invariant dst[..offset] == old(dst[..offset])
      invariant dst[offset..offset + i] == src[..i]
      invariant dst[offset + count..] == old(dst[offset + count..])
    {
      dst[offset + i] := src[i];
    }
  }

  /** Up to the limit of section 2.3 of RFC 5869 the counter has not wrapped. */
  lemma {:induction false} CounterDoesNotWrap(prk: seq<octet>, info: seq<octet>, n: nat)
    requires n <= 255
    ensures ServerT(prk, info, n) == T(prk, info, n)
    ensures ServerExpanded(prk, info, n) == Expanded(prk, info, n)
  {
    hide Hmac;
    if n != 0 {
      CounterDoesNotWrap(prk, info, n - 1);
    }
  }

  /** The standard's HKDF, for every salt that HMAC uses as it is and every length the standard allows. */
  lemma HkdfMeetsStandard(ikm: seq<octet>, salt: seq<octet>, info: seq<octet>, length: nat)
    requires |salt| <= 64 && length <= 255 * 32
    ensures ServerHkdf(salt, ikm, info, length) == Hkdf(salt, ikm, info, length)
  {
    hide Hmac, Expanded, ServerExpanded;
    CounterDoesNotWrap(Hmac(salt, ikm), info, (length + 31) / 32);
  }

  /** HKDF of up to 96 bytes, of which the handshake takes 80, written out. */
  lemma HkdfWrittenOut(ikm: seq<octet>, salt: seq<octet>, info: seq<octet>, length: nat)
    requires length <= 96
    ensures var prk := Hmac(EffectiveKey(salt), ikm);
            var t1 := Hmac(prk, info + [1]);
            var t2 := Hmac(prk, t1 + info + [2]);
            var t3 := Hmac(prk, t2 + info + [3]);
            ServerHkdf(salt, ikm, info, length) == (t1 + t2 + t3)[..length]
  {
    hide Hmac, ServerT, ServerExpanded;
    var prk := Hmac(EffectiveKey(salt), ikm);
    NothingExpanded(prk, info);
    ServerExpandedStep(prk, info, 0);
    ServerExpandedStep(prk, info, 1);
    ServerExpandedStep(prk, info, 2);
    assert [] + info == info;
    var blocks := ServerExpanded(prk, info, 3);
    assert ServerExpanded(prk, info, 0) <= ServerExpanded(prk, info, 1) <= ServerExpanded(prk, info, 2) <= blocks;
    SameStart(ServerExpanded(prk, info, (length + 31) / 32), blocks, length);
  }

  lemma SameStart(front: seq<octet>, all: seq<octet>, n: nat)
    requires front <= all && n <= |front|
    ensures front[..n] == all[..n]
  {
  }

  /** The key block that the server uses is the standard's exactly in these cases. */
  lemma KeyBlockAgrees(key: seq<octet>)
    ensures KeyBlock(EffectiveKey(key)) == KeyBlock(key) <==> |key| <= 64 || key[..32] == Digest(key)
  {
    hide Digest;
    if |key| > 64 {
      assert KeyBlock(key[..32])[..32] == key[..32];
      assert KeyBlock(key)[..32] == Digest(key);
    }
  }

  /** Two keys of more than 64 bytes with the same first 32 bytes authenticate alike. */
  lemma LongKeysCollide(k1: seq<octet>, k2: seq<octet>, text: seq<octet>)
    requires |k1| > 64 && |k2| > 64 && k1[..32] == k2[..32]
    ensures Hmac(EffectiveKey(k1), text) == Hmac(EffectiveKey(k2), text)
  {
  }

  /** A key whose block is the standard's gives the standard's code for every text. */
  lemma AgreesOnSoundKeys(key: seq<octet>, text: seq<octet>)
    requires |key| <= 64 || key[..32] == Digest(key)
    ensures Hmac(EffectiveKey(key), text) == Hmac(key, text)
  {
    hide Digest, KeyBlock;
    KeyBlockAgrees(key);
  }

  /**
   A key for which the code departs: 65 zero bytes. Its digest begins with
   0x98, but the block that the server uses consists of zeros, and the key of
   64 zero bytes has the same one.
   */
  lemma LongKeyCounterexample(text: seq<octet>)
    ensures KeyBlock(EffectiveKey(Zeros(65))) != KeyBlock(Zeros(65))
    ensures KeyBlock(EffectiveKey(Zeros(65)))[0] == 0 && KeyBlock(Zeros(65))[0] == 0x98
    ensures Hmac(EffectiveKey(Zeros(65)), text) == Hmac(Zeros(64), text)
  {
    hide Digest;
    var key := Zeros(65);
    assert EffectiveKey(key) == Zeros(32) && Zeros(32) + Zeros(32) == Zeros(64) == Zeros(64) + Zeros(0);
    DigestOfZeros();
  }
}
