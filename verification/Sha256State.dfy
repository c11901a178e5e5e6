/**
 The server's incremental SHA-256: a 64-byte buffer, eight registers that each
 full buffer updates in place, and a final block that carries the length.
 */
module Sha256Stream {
  import opened Sha256Standard

  class Sha256State {
    var bitlen: nat               // a uint64_t
    const state: array<word>
    const data: array<octet>
    var datalen: nat
    ghost var Hashed: seq<octet>  // the whole blocks that the registers have absorbed

    function Registers(): Words
      requires state.Length == 8
      reads state
    {
      Words(state[0], state[1], state[2], state[3], state[4], state[5], state[6], state[7])
    }

    ghost predicate Valid()
      reads this, state, data
    {
      && state.Length == 8 && data.Length == 64 && datalen < 64
      && |Hashed| % 64 == 0
      && bitlen == (8 * |Hashed|) % UINT64
      && Registers() == Blocks(Hashed)
    }

    /** Everything hashed so far. */
    ghost function Message(): seq<octet>
      requires Valid()
      reads this, state, data
    {
      Hashed + data[..datalen]
    }

    constructor ()
      ensures Valid() && Message() == []
      ensures fresh(state) && fresh(data)
    {
      bitlen, datalen, Hashed := 0, 0, [];
      state := new word[] [INITIAL.a, INITIAL.b, INITIAL.c, INITIAL.d, INITIAL.e, INITIAL.f, INITIAL.g, INITIAL.h];
      data := new octet[64](_ => 0);
    }

    /** The 64 words m[i] of the message schedule for the buffer. */
    method ExpandSchedule() returns (m: array<word>)
      requires data.Length == 64
      ensures fresh(m) && m.Length == 64
      ensures m[..] == Schedule(data[..], |ROUND_CONSTANTS|)
    {
      hide Schedule, NextWord, Plus, SmallSigma0, SmallSigma1, WordOf;
      m := new word[64];
      NoSchedule(data[..]);
      for i := 0 to 16
        invariant m[..i] == Schedule(data[..], i)
      {
        ghost var w := m[..i];
        m[i] := WordOf(data[i * 4], data[i * 4 + 1], data[i * 4 + 2], data[i * 4 + 3]);
        CopiedWord(data[..], i);
        assert m[..i + 1] == w + [m[i]];
      }
      for i := 16 to 64
        invariant m[..i] == Schedule(data[..], i)
      {
        ghost var w := m[..i];
        var s0 := SmallSigma0(m[i - 15]);
        var s1 := SmallSigma1(m[i - 2]);
        m[i] := Plus(Plus(Plus(m[i - 16], s0), m[i - 7]), s1);
        ExpandedWord(data[..], i);
        assert m[..i + 1] == w + [m[i]];
      }
      assert m[..64] == m[..];
    }

    /** The 64 rounds, shifting the eight registers in place. */
    method RunRounds(m: array<word>) returns (v: Words)
      requires state.Length == 8 && m.Length == 64
      ensures v == Rounds(Registers(), m[..], |ROUND_CONSTANTS|)
    {
      hide Plus, BigSigma0, BigSigma1, Ch, Maj;
      var a, b, c, d := state[0], state[1], state[2], state[3];
      var e, f, g, h := state[4], state[5], state[6], state[7];
      for i := 0 to 64
        invariant Words(a, b, c, d, e, f, g, h) == Rounds(Registers(), m[..], i)
      {
        var temp1 := Plus(Plus(Plus(Plus(h, BigSigma1(e)), Ch(e, f, g)), ROUND_CONSTANTS[i]), m[i]);
        var temp2 := Plus(BigSigma0(a), Maj(a, b, c));
        h := g;
        g := f;
        f := e;
        e := Plus(d, temp1);
        d := c;
        c := b;
        b := a;
        a := Plus(temp1, temp2);
      }
      v := Words(a, b, c, d, e, f, g, h);
    }

    /** Adds the working variables to the registers. */
    method AddRegisters(v: Words)
      requires state.Length == 8
      modifies state
      ensures Registers() == Add(old(Registers()), v)
    {
      hide Plus;
      var a, b, c, d := Plus(state[0], v.a), Plus(state[1], v.b), Plus(state[2], v.c), Plus(state[3], v.d);
      var e, f, g, h := Plus(state[4], v.e), Plus(state[5], v.f), Plus(state[6], v.g), Plus(state[7], v.h);
      Store(a, b, c, d, e, f, g, h);
    }

    method Store(a: word, b: word, c: word, d: word, e: word, f: word, g: word, h: word)
      requires state.Length == 8
      modifies state
      ensures Registers() == Words(a, b, c, d, e, f, g, h)
    {
      state[0] := a;
      state[1] := b;
      state[2] := c;
      state[3] := d;
      state[4] := e;
      state[5] := f;
      state[6] := g;
      state[7] := h;
    }

    /** Replaces the registers by the compression of the registers and the buffer. */
    method Transform()
      requires state.Length == 8 && data.Length == 64
      modifies state
      ensures Registers() == Compress(old(Registers()), data[..])
    {
      hide Add, Rounds, Schedule;
      var m := ExpandSchedule();
      var v := RunRounds(m);
      AddRegisters(v);
    }

    /** Compresses a full buffer into registers that already hold `hashed`. */
    method AbsorbBlock(ghost hashed: seq<octet>)
      requires state.Length == 8 && data.Length == 64
      requires |hashed| % 64 == 0 && Registers() == Blocks(hashed)
      modifies state
      ensures |hashed + data[..]| % 64 == 0
      ensures Registers() == Blocks(hashed + data[..])
    {
      hide Blocks, Compress;
      BlocksStep(hashed, data[..]);
      Transform();
    }

    /** Empties a full buffer, as Sha256Update does when `datalen` reaches 64. */
    method Flush()
      requires state.Length == 8 && data.Length == 64 && datalen == 64
      requires |Hashed| % 64 == 0 && Registers() == Blocks(Hashed) && bitlen == (8 * |Hashed|) % UINT64
      modifies this`bitlen, this`datalen, this`Hashed, state
      ensures Valid() && datalen == 0
      ensures Hashed == old(Hashed + data[..])
    {
      hide Blocks, Compress;
      ghost var whole := Hashed + data[..];
      AbsorbBlock(Hashed);
      LengthStep(|Hashed|);
      ghost var r := Registers();
      bitlen := (bitlen + 512) % UINT64;
      datalen := 0;
      Hashed := whole;
      assert Registers() == r;
    }

    /** Hashes `input`; how a message is cut into calls makes no difference. */
    method Update(input: seq<octet>)
      requires Valid()
      modifies this, state, data
      ensures Valid()
      ensures Message() == old(Message()) + input
    {
      hide Blocks, Compress;
      ghost var before := Message();
      for i := 0 to |input|
        invariant Valid()
        invariant Message() == before + input[..i]
      {
        assert before + input[..i + 1] == (before + input[..i]) + [input[i]];
        Put(input[i]);
      }
      assert before + input[..|input|] == before + input;
    }

    /** One turn of the loop of Sha256Update. */
    method Put(b: octet)
      requires Valid()
      modifies this, state, data
      ensures Valid()
      ensures Message() == old(Message()) + [b]
    {
      hide Blocks, Compress;
      ghost var buffered := data[..datalen];
      data[datalen] := b;
      datalen := datalen + 1;
      assert data[..datalen] == buffered + [b];
      if datalen == 64 {
        assert data[..] == data[..64];
        Flush();
      }
    }

    /** Ends the message in the buffer with 0x80 and fills with zeros up to `end`. */
    method PadTo(end: nat)
      requires data.Length == 64 && datalen < end <= 64
      modifies data
      ensures data[..end] == old(data[..datalen]) + [0x80] + Zeros(end - datalen - 1)
    {
      var i := datalen;
      data[i] := 0x80;
      i := i + 1;
      while i < end
        invariant datalen < i <= end
        invariant forall j :: 0 <= j < datalen ==> data[j] == old(data[j])
        invariant data[datalen] == 0x80
        invariant forall j :: datalen < j < i ==> data[j] == 0
      {
        data[i] := 0x00;
        i := i + 1;
      }
    }

    /** Stores `bitlen` big-endian in the last eight bytes of the buffer. */
    method StoreLength()
      requires data.Length == 64
      modifies data
      ensures data[..] == old(data[..56]) + BigEndian64(bitlen)
    {
      hide LengthByte;
      StoreTail(LengthByte(bitlen, 0), LengthByte(bitlen, 1), LengthByte(bitlen, 2), LengthByte(bitlen, 3),
                LengthByte(bitlen, 4), LengthByte(bitlen, 5), LengthByte(bitlen, 6), LengthByte(bitlen, 7));
    }

    method StoreTail(b0: octet, b1: octet, b2: octet, b3: octet, b4: octet, b5: octet, b6: octet, b7: octet)
      requires data.Length == 64
      modifies data
      ensures forall j :: 0 <= j < 56 ==> data[j] == old(data[j])
      ensures data[56] == b7 && data[57] == b6 && data[58] == b5 && data[59] == b4
      ensures data[60] == b3 && data[61] == b2 && data[62] == b1 && data[63] == b0
    {
      data[63] := b0;
      data[62] := b1;
      data[61] := b2;
      data[60] := b3;
      data[59] := b4;
      data[58] := b5;
      data[57] := b6;
      data[56] := b7;
    }

    /** Writes the registers out, one byte of each in every turn. */
    method StoreDigest(out: array<octet>)
      requires state.Length == 8 && out.Length == 32
      modifies out
      ensures out[..] == DigestBytes(Registers())
    {
      hide ByteAt, DigestBytes;
      ghost var s := Registers();
      for i := 0 to 4
        invariant Registers() == s
        invariant forall j :: 0 <= j < i ==> Column(out[..], s, j)
      {
        ghost var before := out[..];
        StoreColumn(out, i);
        forall j | 0 <= j < i
          ensures Column(out[..], s, j)
        {
          assert Column(before, s, j);
        }
      }
      assert Column(out[..], s, 0) && Column(out[..], s, 1) && Column(out[..], s, 2) && Column(out[..], s, 3);
      DigestColumns(out[..], s);
    }

    method StoreColumn(out: array<octet>, i: nat)
      requires state.Length == 8 && out.Length == 32 && i < 4
      modifies out
      ensures forall j :: 0 <= j < 32 && j % 4 != i ==> out[j] == old(out[j])
      ensures Column(out[..], Registers(), i)
    {
      hide ByteAt;
      var a, b, c, d := ByteAt(state[0], i), ByteAt(state[1], i), ByteAt(state[2], i), ByteAt(state[3], i);
      var e, f, g, h := ByteAt(state[4], i), ByteAt(state[5], i), ByteAt(state[6], i), ByteAt(state[7], i);
      out[i] := a;
      out[i + 4] := b;
      out[i + 8] := c;
      out[i + 12] := d;
      out[i + 16] := e;
      out[i + 20] := f;
      out[i + 24] := g;
      out[i + 28] := h;
    }

    /**
     Pads the message. All but its last block is in the registers afterwards,
     and the buffer holds that block except for the length.
     */
    method Pad56() returns (ghost hashed: seq<octet>)
      requires Valid()
      modifies state, data
      ensures |hashed| % 64 == 0 && Registers() == Blocks(hashed)
      ensures Pad(old(Message())) == hashed + (data[..56] + BigEndian64((8 * old(|Message()|)) % UINT64))
    {
      hide Blocks, Pad, BigEndian64;
      hashed := Hashed;
      if datalen < 56 {
        PadShort(hashed, data[..datalen]);
        PadTo(56);
      } else {
        PadLong(hashed, data[..datalen]);
        PadTo(64);
        hashed := AbsorbAndClear(hashed);
      }
    }

    method AbsorbAndClear(ghost hashed: seq<octet>) returns (ghost more: seq<octet>)
      requires state.Length == 8 && data.Length == 64
      requires |hashed| % 64 == 0 && Registers() == Blocks(hashed)
      modifies state, data
      ensures |more| % 64 == 0 && Registers() == Blocks(more)
      ensures more == hashed + old(data[..64]) && data[..56] == Zeros(56)
    {
      hide Blocks;
      assert data[..64] == data[..];
      more := hashed + data[..];
      AbsorbBlock(hashed);
      ghost var r := Registers();
      ClearBuffer();
      assert Registers() == r;
    }

    /** Zeroes the first 56 bytes of the buffer. */
    method ClearBuffer()
      requires data.Length == 64
      modifies data
      ensures data[..56] == Zeros(56)
    {
      for i := 0 to 56
        invariant forall j :: 0 <= j < i ==> data[j] == 0
      {
        data[i] := 0;
      }
    }

    /** Completes the last block with the length and absorbs it. */
    method AbsorbLast(ghost hashed: seq<octet>)
      requires state.Length == 8 && data.Length == 64
      requires |hashed| % 64 == 0 && Registers() == Blocks(hashed)
      modifies state, data
      ensures |hashed + (old(data[..56]) + BigEndian64(bitlen))| % 64 == 0
      ensures Registers() == Blocks(hashed + (old(data[..56]) + BigEndian64(bitlen)))
    {
      hide Blocks, BigEndian64;
      ghost var r := Registers();
      StoreLength();
      assert Registers() == r;
      AbsorbBlock(hashed);
    }

    /** Pads, hashes the last one or two blocks, and writes the digest. */
    method Final(out: array<octet>)
      requires Valid() && out.Length == 32
      modifies this, state, data, out
      ensures out[..] == Digest(old(Message()))
    {
      hide Blocks, Pad, BigEndian64, DigestBytes;
      FinalLength(|Hashed|, datalen);
      ghost var message := Message();
      ghost var hashed := Pad56();
      ghost var last := data[..56];
      bitlen := (bitlen + datalen * 8) % UINT64;
      assert data[..56] == last;
      AbsorbLast(hashed);
      assert Registers() == Blocks(Pad(message));
      StoreDigest(out);
    }
  }

  lemma PlusAssociates(x: word, y: word, z: word)
    ensures Plus(Plus(x, y), z) == Plus(x, Plus(y, z))
  {
    calc {
      Plus(Plus(x, y), z);
      Plus(x + y, z);
      (x + y) + z;
      x + (y + z);
      Plus(x, y + z);
      Plus(x, Plus(y, z));
    }
  }

  lemma PlusCommutes(x: word, y: word)
    ensures Plus(x, y) == Plus(y, x)
  {
  }

  /** The code adds the four terms of W_t in another order than the standard. */
  lemma Reorder(p: word, q: word, r: word, s: word)
    ensures Plus(Plus(Plus(p, q), r), s) == Plus(Plus(Plus(s, r), q), p)
  {
    hide Plus;
    calc {
      Plus(Plus(Plus(p, q), r), s);
      { PlusCommutes(p, q); PlusCommutes(Plus(q, p), r); PlusCommutes(Plus(r, Plus(q, p)), s); }
      Plus(s, Plus(r, Plus(q, p)));
      { PlusAssociates(s, r, Plus(q, p)); }
      Plus(Plus(s, r), Plus(q, p));
      { PlusAssociates(Plus(s, r), q, p); }
      Plus(Plus(Plus(s, r), q), p);
    }
  }

  lemma NoSchedule(block: seq<octet>)
    requires |block| == 64
    ensures Schedule(block, 0) == []
  {
  }

  /** The first sixteen words are those of the block. */
  lemma CopiedWord(block: seq<octet>, i: nat)
    requires |block| == 64 && i < 16
    ensures Schedule(block, i + 1) ==
            Schedule(block, i) + [WordOf(block[i * 4], block[i * 4 + 1], block[i * 4 + 2], block[i * 4 + 3])]
  {
    hide WordOf;
  }

  /** The other words, with the terms in the order in which the code adds them. */
  lemma ExpandedWord(block: seq<octet>, i: nat)
    requires |block| == 64 && 16 <= i
    ensures var w := Schedule(block, i);
            Schedule(block, i + 1) ==
            w + [Plus(Plus(Plus(w[i - 16], SmallSigma0(w[i - 15])), w[i - 7]), SmallSigma1(w[i - 2]))]
  {
    hide Plus, SmallSigma0, SmallSigma1, WordOf;
    var w := Schedule(block, i);
    Reorder(w[i - 16], SmallSigma0(w[i - 15]), w[i - 7], SmallSigma1(w[i - 2]));
  }

  /** Byte `i` of each of the eight words is in its place in `out`. */
  ghost predicate Column(out: seq<octet>, s: Words, i: nat)
    requires |out| == 32 && i < 4
  {
    && out[i] == ByteAt(s.a, i) && out[i + 4] == ByteAt(s.b, i)
    && out[i + 8] == ByteAt(s.c, i) && out[i + 12] == ByteAt(s.d, i)
    && out[i + 16] == ByteAt(s.e, i) && out[i + 20] == ByteAt(s.f, i)
    && out[i + 24] == ByteAt(s.g, i) && out[i + 28] == ByteAt(s.h, i)
  }

  /** Every four bytes of `out` are those of one word. */
  ghost predicate InWords(out: seq<octet>, s: Words)
    requires |out| == 32
  {
    && out[0..4] == WordBytes(s.a) && out[4..8] == WordBytes(s.b)
    && out[8..12] == WordBytes(s.c) && out[12..16] == WordBytes(s.d)
    && out[16..20] == WordBytes(s.e) && out[20..24] == WordBytes(s.f)
    && out[24..28] == WordBytes(s.g) && out[28..32] == WordBytes(s.h)
  }

  function WordNo(s: Words, k: nat): word
    requires k < 8
  {
    if k == 0 then s.a else if k == 1 then s.b else if k == 2 then s.c else if k == 3 then s.d
    else if k == 4 then s.e else if k == 5 then s.f else if k == 6 then s.g else s.h
  }

  lemma ColumnByte(out: seq<octet>, s: Words, k: nat, i: nat)
    requires |out| == 32 && k < 8 && i < 4 && Column(out, s, i)
    ensures out[4 * k + i] == ByteAt(WordNo(s, k), i)
  {
    hide ByteAt;
  }

  lemma ColumnsToWord(out: seq<octet>, s: Words, k: nat)
    requires |out| == 32 && k < 8
    requires Column(out, s, 0) && Column(out, s, 1) && Column(out, s, 2) && Column(out, s, 3)
    ensures out[4 * k..4 * k + 4] == WordBytes(WordNo(s, k))
  {
    hide ByteAt, WordBytes, Column, WordNo;
    ColumnByte(out, s, k, 0);
    ColumnByte(out, s, k, 1);
    ColumnByte(out, s, k, 2);
    ColumnByte(out, s, k, 3);
    WordSlice(out, 4 * k, WordNo(s, k));
  }

  lemma ColumnsToWords(out: seq<octet>, s: Words)
    requires |out| == 32
    requires Column(out, s, 0) && Column(out, s, 1) && Column(out, s, 2) && Column(out, s, 3)
    ensures InWords(out, s)
  {
    hide ByteAt, WordBytes, Column;
    ColumnsToWord(out, s, 0);
    ColumnsToWord(out, s, 1);
    ColumnsToWord(out, s, 2);
    ColumnsToWord(out, s, 3);
    ColumnsToWord(out, s, 4);
    ColumnsToWord(out, s, 5);
    ColumnsToWord(out, s, 6);
    ColumnsToWord(out, s, 7);
  }

  lemma DigestColumns(out: seq<octet>, s: Words)
    requires |out| == 32
    requires Column(out, s, 0) && Column(out, s, 1) && Column(out, s, 2) && Column(out, s, 3)
    ensures out == DigestBytes(s)
  {
    hide ByteAt, WordBytes, Column;
    ColumnsToWords(out, s);
    EightSlices(out);
  }

  lemma WordSlice(out: seq<octet>, k: nat, w: word)
    requires k + 4 <= |out|
    requires out[k] == ByteAt(w, 0) && out[k + 1] == ByteAt(w, 1)
    requires out[k + 2] == ByteAt(w, 2) && out[k + 3] == ByteAt(w, 3)
    ensures out[k..k + 4] == WordBytes(w)
  {
    hide ByteAt;
  }

  lemma EightSlices(out: seq<octet>)
    requires |out| == 32
    ensures out == out[0..4] + out[4..8] + out[8..12] + out[12..16] +
                   out[16..20] + out[20..24] + out[24..28] + out[28..32]
  {
  }

  lemma PadShort(h: seq<octet>, t: seq<octet>)
    requires |h| % 64 == 0 && |t| < 56
    ensures Pad(h + t) ==
            h + (t + [0x80] + Zeros(56 - |t| - 1) + BigEndian64((8 * |h + t|) % UINT64))
  {
    assert ZeroCount(|h + t|) == 56 - |t| - 1;
  }

  lemma PadLong(h: seq<octet>, t: seq<octet>)
    requires |h| % 64 == 0 && 56 <= |t| < 64
    ensures Pad(h + t) ==
            h + (t + [0x80] + Zeros(64 - |t| - 1)) + (Zeros(56) + BigEndian64((8 * |h + t|) % UINT64))
  {
    assert ZeroCount(|h + t|) == 64 - |t| - 1 + 56;
  }

  lemma FinalLength(n: nat, t: nat)
    ensures ((8 * n) % UINT64 + t * 8) % UINT64 == (8 * (n + t)) % UINT64
  {
  }

  lemma LengthStep(n: nat)
    ensures ((8 * n) % UINT64 + 512) % UINT64 == (8 * (n + 64)) % UINT64
  {
  }
}
