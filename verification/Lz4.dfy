/**
 The literal-only LZ4 blocks of the engine: a block is a list of runs, each a
 token, optional length bytes, and that many literals. There are no matches.
 */
module Lz4 {
  import opened Bytes

  /**
   The length that the bytes from `off` add to `len`: all the bytes up to and
   including the first that is not 255, or up to the end of the input.
   The second component is the offset after them.
   */
  function ExtendLength(src: seq<byte>, off: nat, len: nat): (r: (nat, nat))
    requires off <= |src|
    ensures off <= r.1 <= |src| && len <= r.0
    decreases |src| - off
  {
    if off == |src| then (len, off)
    else if src[off] != 255 then (len + src[off], off + 1)
    else ExtendLength(src, off + 1, len + 255)
  }

  /** The literal length announced by the token at `off`, and the offset of the first literal. */
  function RunHeader(src: seq<byte>, off: nat): (r: (nat, nat))
    requires off < |src|
    ensures off < r.1 <= |src|
  {
    var len := src[off] / 16;
    if len == 15 then ExtendLength(src, off + 1, 15) else (len, off + 1)
  }

  /** The literals of all runs from `off` on, up to the first run that the input cuts short. */
  function Literals(src: seq<byte>, off: nat): seq<byte>
    requires off <= |src|
    decreases |src| - off
  {
    if off == |src| then []
    else
      var (len, start) := RunHeader(src, off);
      if start + len > |src| then [] else src[start..start + len] + Literals(src, start + len)
  }

  /** `n` literals from `off` on are exactly the literals of some number of complete runs. */
  predicate RunBoundary(src: seq<byte>, off: nat, n: nat)
    requires off <= |src|
    decreases |src| - off
  {
    n == 0 ||
    (off < |src| &&
     var (len, start) := RunHeader(src, off);
     start + len <= |src| && len <= n && RunBoundary(src, start + len, n - len))
  }

  /** The inner loop that both decoders share. */
  method ReadRunHeader(src: seq<byte>, off: nat) returns (len: nat, start: nat)
    requires off < |src|
    ensures (len, start) == RunHeader(src, off)
  {
    len, start := src[off] / 16, off + 1;
    if len == 15 {
      while start < |src|
        invariant off < start <= |src|
        invariant ExtendLength(src, start, len) == RunHeader(src, off)
      {
        var b := src[start];
        start := start + 1;
        len := len + b;
        if b != 255 {
          break;
        }
      }
    }
  }

  /** The decoder of the scan path: it hands out the literals in pieces of any size. */
  class LiteralStream {
    var src: seq<byte>
    var srcOffset: nat
    var litPtr: nat
    var litRemaining: nat

    predicate Valid()
      reads this
    {
      srcOffset <= |src| && litPtr + litRemaining <= |src|
    }

    /** The literals that have not been handed out. */
    ghost function Rest(): seq<byte>
      requires Valid()
      reads this
    {
      src[litPtr..litPtr + litRemaining] + Literals(src, srcOffset)
    }

    constructor (data: seq<byte>)
      ensures Valid() && Rest() == Literals(data, 0)
    {
      src, srcOffset, litPtr, litRemaining := data, 0, 0, 0;
    }

    method Read(dst: array<byte>, size: nat) returns (ok: bool)
      requires Valid() && size <= dst.Length
      modifies this, dst
      ensures Valid() && src == old(src)
      ensures ok <==> size <= |old(Rest())|
      ensures ok ==> dst[..size] == old(Rest())[..size] && Rest() == old(Rest())[size..]
      ensures !ok ==> dst[..|old(Rest())|] == old(Rest()) && litRemaining == 0
      ensures dst[size..] == old(dst[size..])
    {
      hide LiteralStream.Rest;
      ghost var rest := Rest();
      var out := 0;
      while out < size
        invariant Valid() && src == old(src)
        invariant 0 <= out <= size
        invariant rest == dst[..out] + Rest()
        invariant dst[size..] == old(dst[size..])
        decreases |src| - srcOffset, size - out
      {
        ghost var before, handed := Rest(), dst[..out];
        var more, take := Turn(dst, out, size);
        if !more {
          assert rest == dst[..out];
          return false;
        }
        Handed(rest, handed, before, take);
        out := out + take;
      }
      assert rest[..size] == dst[..size] && rest[size..] == Rest();
      return true;
    }

    lemma Handed(rest: seq<byte>, handed: seq<byte>, before: seq<byte>, take: nat)
      requires rest == handed + before && take <= |before|
      ensures rest == (handed + before[..take]) + before[take..]
    {
      assert before == before[..take] + before[take..];
    }

    /** One turn of the loop: the next token if no literals are left, and then literals of its run. */
    method Turn(dst: array<byte>, out: nat, size: nat) returns (more: bool, take: nat)
      requires Valid() && out < size <= dst.Length
      modifies this, dst
      ensures Valid() && src == old(src) && dst[size..] == old(dst[size..])
      ensures !more ==> old(Rest()) == [] && litRemaining == 0 && dst[..out] == old(dst[..out])
      ensures more ==> take <= size - out && take <= |old(Rest())|
      ensures more ==> dst[..out + take] == old(dst[..out]) + old(Rest())[..take] && Rest() == old(Rest())[take..]
      ensures more ==> srcOffset > old(srcOffset) || (srcOffset == old(srcOffset) && take > 0)
    {
      hide LiteralStream.Rest;
      more, take := true, 0;
      if litRemaining == 0 {
        more := NextRun();
        if !more {
          return;
        }
      }
      take := Take(dst, out, size);
    }

    /** Hands out literals of the current run, as many as there are and still fit. */
    method Take(dst: array<byte>, out: nat, size: nat) returns (take: nat)
      requires Valid() && out < size <= dst.Length
      modifies this`litPtr, this`litRemaining, dst
      ensures Valid() && take == if old(litRemaining) < size - out then old(litRemaining) else size - out
      ensures take <= |old(Rest())|
      ensures dst[..out + take] == old(dst[..out]) + old(Rest())[..take]
      ensures Rest() == old(Rest())[take..]
      ensures dst[size..] == old(dst[size..])
    {
      hide Literals;
      take := if litRemaining < size - out then litRemaining else size - out;
      Copy(dst, out, litPtr, take);
      litPtr := litPtr + take;
      litRemaining := litRemaining - take;
    }

    /** Parses the next token; it fails at the end of the input and at a run that is cut short. */
    method NextRun() returns (more: bool)
      requires Valid() && litRemaining == 0
      modifies this
      ensures Valid() && src == old(src) && srcOffset >= old(srcOffset)
      ensures more ==> srcOffset > old(srcOffset) && Rest() == old(Rest())
      ensures !more ==> old(Rest()) == [] && litRemaining == 0
    {
      if srcOffset >= |src| {
        return false;
      }
      var len, start := ReadRunHeader(src, srcOffset);
      if start + len > |src| {
        srcOffset := start;
        return false;
      }
      litPtr := start;
      litRemaining := len;
      srcOffset := start + len;
      return true;
    }

    /** memcpy of `take` literals to `dst + out`. */
    method Copy(dst: array<byte>, out: nat, from: nat, take: nat)
      requires out + take <= dst.Length && from + take <= |src|
      modifies dst
      ensures dst[..out + take] == old(dst[..out]) + src[from..from + take]
      ensures dst[out + take..] == old(dst[out + take..])
    {
      for i := 0 to take
        invariant dst[..out + i] == old(dst[..out]) + src[from..from + i]
        invariant dst[out + take..] == old(dst[out + take..])
      {
        dst[out + i] := src[from + i];
        assert dst[..out + i + 1] == dst[..out + i] + [src[from + i]];
      }
    }
  }
}
