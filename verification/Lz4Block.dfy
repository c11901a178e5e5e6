/** Whole-block encoding and decoding, and its agreement with the literal stream. */
module Lz4Block {
  import opened Bytes
  import opened Lz4

  const BLOCK_SIZE := 0x1_0000

  // ---------- The encoder ----------

  function LengthBytes(n: nat): (s: seq<byte>)
    ensures |s| >= 1
  {
    if n < 255 then [n] else [255] + LengthBytes(n - 255)
  }

  function Header(n: nat): (s: seq<byte>)
    ensures |s| >= 1
  {
    if n < 15 then [n * 16] else [240] + LengthBytes(n - 15)
  }

  /** The format's token: the length in its high four bits, or 15 there and bytes that add up to the rest. */
  lemma HeaderExactly(n: nat)
    ensures Header(n) == if n < 15 then [n * 0x10] else [0xF0] + seq((n - 15) / 255, i => 255) + [(n - 15) % 255]
  {
    if n >= 15 {
      LengthBytesExactly(n - 15);
    }
  }

  lemma {:induction false} LengthBytesExactly(n: nat)
    ensures LengthBytes(n) == seq(n / 255, i => 255) + [n % 255]
  {
    if n >= 255 {
      LengthBytesExactly(n - 255);
      assert n / 255 == (n - 255) / 255 + 1 && n % 255 == (n - 255) % 255;
      var k := n / 255;
      assert [255] + seq(k - 1, i => 255) == seq(k, i => 255);
    }
  }

  /** `data` as a list of runs of at most 64 KiB. */
  function Encoded(data: seq<byte>): seq<byte> {
    if data == [] then []
    else
      var n := if |data| < BLOCK_SIZE then |data| else BLOCK_SIZE;
      Header(n) + data[..n] + Encoded(data[n..])
  }

  lemma EncodedExactly(data: seq<byte>)
    ensures 0 < |data| <= 0x1_0000 ==> Encoded(data) == Header(|data|) + data
    ensures |data| > 0x1_0000 ==> Encoded(data) == Header(0x1_0000) + data[..0x1_0000] + Encoded(data[0x1_0000..])
  {
    hide Header;
    if 0 < |data| <= 0x1_0000 {
      assert data[..|data|] == data && data[|data|..] == [];
    }
  }

  method EncodeLz4LiteralBlock(src: seq<byte>) returns (out: seq<byte>)
    ensures out == Encoded(src)
  {
    hide Encoded, Header;
    out := [];
    var offset := 0;
    assert src[0..] == src;
    while offset < |src|
      invariant 0 <= offset <= |src|
      invariant Encoded(src) == out + Encoded(src[offset..])
    {
      var block := if |src| - offset < BLOCK_SIZE then |src| - offset else BLOCK_SIZE;
      var run := EncodeRun(src[offset..offset + block]);
      EncodedSoFar(src, out, offset, block);
      out := out + run;
      offset := offset + block;
    }
    EncodedNothing(src[offset..]);
  }

  lemma EncodedSoFar(src: seq<byte>, out: seq<byte>, offset: nat, n: nat)
    requires offset < |src| && n == if |src| - offset < BLOCK_SIZE then |src| - offset else BLOCK_SIZE
    requires Encoded(src) == out + Encoded(src[offset..])
    ensures Encoded(src) == (out + (Header(n) + src[offset..offset + n])) + Encoded(src[offset + n..])
  {
    hide Encoded, Header;
    EncodedStep(src, offset, n);
    var run, rest := Header(n) + src[offset..offset + n], Encoded(src[offset + n..]);
    assert out + (run + rest) == (out + run) + rest;
  }

  lemma EncodedNothing(data: seq<byte>)
    requires data == []
    ensures Encoded(data) == []
  {
  }

  lemma EncodedStep(src: seq<byte>, offset: nat, n: nat)
    requires offset < |src| && n == if |src| - offset < BLOCK_SIZE then |src| - offset else BLOCK_SIZE
    ensures Encoded(src[offset..]) == Header(n) + src[offset..offset + n] + Encoded(src[offset + n..])
  {
    hide Header;
    var data := src[offset..];
    assert data[..n] == src[offset..offset + n] && data[n..] == src[offset + n..];
  }

  method EncodeRun(literals: seq<byte>) returns (run: seq<byte>)
    ensures run == Header(|literals|) + literals
  {
    var literalLen := |literals|;
    if literalLen < 15 {
      run := [literalLen * 16];
    } else {
      run := [240];
      var bytes := EncodeLength(literalLen - 15);
      run := run + bytes;
    }
    run := run + literals;
  }

  method EncodeLength(n: nat) returns (out: seq<byte>)
    ensures out == LengthBytes(n)
  {
    out := [];
    var remaining := n;
    while remaining >= 255
      invariant LengthBytes(n) == out + LengthBytes(remaining)
    {
      out := out + [255];
      remaining := remaining - 255;
    }
    out := out + [remaining];
  }

  // ---------- The decoder ----------

  method DecodeLz4LiteralBlock(src: seq<byte>, dst: array<byte>) returns (ok: bool)
    modifies dst
    ensures ok <==> RunBoundary(src, 0, dst.Length)
    ensures ok ==> dst[..] <= Literals(src, 0)
  {
    hide Literals, RunHeader;
    var srcOffset, dstOffset := 0, 0;
    while srcOffset < |src| && dstOffset < dst.Length
      invariant 0 <= srcOffset <= |src| && 0 <= dstOffset <= dst.Length
      invariant RunBoundary(src, 0, dst.Length) <==> RunBoundary(src, srcOffset, dst.Length - dstOffset)
      invariant Literals(src, 0) == dst[..dstOffset] + Literals(src, srcOffset)
      decreases |src| - srcOffset
    {
      var len, start := ReadRunHeader(src, srcOffset);
      if start + len > |src| || dstOffset + len > dst.Length {
        return false;
      }
      LiteralsStep(src, srcOffset);
      CopyRun(src, start, len, dst, dstOffset);
      srcOffset := start + len;
      dstOffset := dstOffset + len;
    }
    assert dst[..dst.Length] == dst[..];
    return dstOffset == dst.Length;
  }

  method CopyRun(src: seq<byte>, from: nat, len: nat, dst: array<byte>, to: nat)
    requires from + len <= |src| && to + len <= dst.Length
    modifies dst
    ensures dst[..to + len] == old(dst[..to]) + src[from..from + len]
  {
    for i := 0 to len
      invariant dst[..to + i] == old(dst[..to]) + src[from..from + i]
    {
      dst[to + i] := src[from + i];
      assert dst[..to + i + 1] == dst[..to + i] + [src[from + i]];
    }
  }

  lemma LiteralsStep(src: seq<byte>, off: nat)
    requires off < |src|
    ensures var (len, start) := RunHeader(src, off);
            Literals(src, off) ==
            if start + len > |src| then [] else src[start..start + len] + Literals(src, start + len)
  {
  }

  lemma LiteralsEnd(src: seq<byte>)
    ensures Literals(src, |src|) == []
  {
  }

  // ---------- The three agree ----------

  /** What the block decoder accepts, a fresh stream can read in one call; the converse needs a boundary. */
  lemma {:induction false} BoundaryWithinLiterals(src: seq<byte>, off: nat, n: nat)
    requires off <= |src| && RunBoundary(src, off, n)
    ensures n <= |Literals(src, off)|
    decreases |src| - off
  {
    if n != 0 {
      var (len, start) := RunHeader(src, off);
      BoundaryWithinLiterals(src, start + len, n - len);
    }
  }

  /** Decoding undoes encoding, for the block decoder and for the stream. */
  lemma {:induction false} EncodedRoundTrip(data: seq<byte>)
    ensures Literals(Encoded(data), 0) == data
    ensures RunBoundary(Encoded(data), 0, |data|)
  {
    hide Literals, RunBoundary, Header;
    if data == [] {
      EmptyInput();
    } else {
      var n := if |data| < BLOCK_SIZE then |data| else BLOCK_SIZE;
      EncodedRoundTrip(data[n..]);
      RunRoundTrip(data[..n], Encoded(data[n..]), |data| - n);
      assert data == data[..n] + data[n..];
    }
  }

  lemma EmptyInput()
    ensures Literals([], 0) == [] && RunBoundary([], 0, 0)
  {
  }

  lemma RunRoundTrip(run: seq<byte>, rest: seq<byte>, n: nat)
    ensures Literals(Header(|run|) + run + rest, 0) == run + Literals(rest, 0)
    ensures RunBoundary(rest, 0, n) ==> RunBoundary(Header(|run|) + run + rest, 0, |run| + n)
  {
    hide Header, RunHeader;
    var prefix := Header(|run|) + run;
    var src := prefix + rest;
    assert src == Header(|run|) + (run + rest);
    HeaderRoundTrip(|run|, run + rest);
    ShiftLiterals(prefix, rest, 0);
    ShiftBoundary(prefix, rest, 0, n);
    assert src[|Header(|run|)|..|prefix|] == run;
  }

  lemma {:induction false} HeaderRoundTrip(n: nat, tail: seq<byte>)
    ensures RunHeader(Header(n) + tail, 0) == (n, |Header(n)|)
  {
    if n >= 15 {
      var src := Header(n) + tail;
      assert src == [240] + LengthBytes(n - 15) + tail;
      LengthRoundTrip([240], n - 15, tail, 15);
    }
  }

  lemma {:induction false} LengthRoundTrip(prefix: seq<byte>, n: nat, tail: seq<byte>, len: nat)
    ensures ExtendLength(prefix + LengthBytes(n) + tail, |prefix|, len) == (len + n, |prefix| + |LengthBytes(n)|)
    decreases n
  {
    var src := prefix + LengthBytes(n) + tail;
    if n >= 255 {
      assert src == (prefix + [255]) + LengthBytes(n - 255) + tail;
      LengthRoundTrip(prefix + [255], n - 255, tail, len + 255);
    }
  }

  lemma {:induction false} ShiftExtend(prefix: seq<byte>, src: seq<byte>, off: nat, len: nat)
    requires off <= |src|
    ensures var r := ExtendLength(src, off, len);
            ExtendLength(prefix + src, |prefix| + off, len) == (r.0, |prefix| + r.1)
    decreases |src| - off
  {
    if off < |src| && src[off] == 255 {
      ShiftExtend(prefix, src, off + 1, len + 255);
    }
  }

  lemma ShiftHeader(prefix: seq<byte>, src: seq<byte>, off: nat)
    requires off < |src|
    ensures var r := RunHeader(src, off);
            RunHeader(prefix + src, |prefix| + off) == (r.0, |prefix| + r.1)
  {
    ShiftExtend(prefix, src, off + 1, 15);
  }

  lemma {:induction false} ShiftLiterals(prefix: seq<byte>, src: seq<byte>, off: nat)
    requires off <= |src|
    ensures Literals(prefix + src, |prefix| + off) == Literals(src, off)
    decreases |src| - off
  {
    hide RunHeader, Literals;
    var all, at := prefix + src, |prefix| + off;
    if off == |src| {
      LiteralsEnd(src);
      LiteralsEnd(all);
    } else {
      var len, start := RunHeader(src, off).0, RunHeader(src, off).1;
      assert RunHeader(all, at) == (len, |prefix| + start) by { ShiftHeader(prefix, src, off); }
      if start + len > |src| {
        LiteralsStep(src, off);
        LiteralsStep(all, at);
      } else {
        ShiftLiterals(prefix, src, start + len);
        calc {
          Literals(all, at);
          { LiteralsStep(all, at); }
          all[|prefix| + start..|prefix| + start + len] + Literals(all, |prefix| + start + len);
          { ShiftSlice(prefix, src, start, start + len); }
          src[start..start + len] + Literals(src, start + len);
          { LiteralsStep(src, off); }
          Literals(src, off);
        }
      }
    }
  }

  lemma ShiftSlice(prefix: seq<byte>, src: seq<byte>, i: nat, j: nat)
    requires i <= j <= |src|
    ensures (prefix + src)[|prefix| + i..|prefix| + j] == src[i..j]
  {
  }

  lemma {:induction false} ShiftBoundary(prefix: seq<byte>, src: seq<byte>, off: nat, n: nat)
    requires off <= |src|
    ensures RunBoundary(prefix + src, |prefix| + off, n) <==> RunBoundary(src, off, n)
    decreases |src| - off
  {
    hide RunHeader;
    if off < |src| && n != 0 {
      ShiftHeader(prefix, src, off);
      var (len, start) := RunHeader(src, off);
      if start + len <= |src| && len <= n {
        ShiftBoundary(prefix, src, start + len, n - len);
      }
    }
  }
}
