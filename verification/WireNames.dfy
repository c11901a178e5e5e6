/** Database and table names on the wire: a length, then the name in UTF-8. */
module WireNames {
  import opened Bytes
  import opened ColumnFormat

  /** A Unicode scalar value: what Python can encode. */
  type CodePoint = c: int | 0 <= c < 0xD800 || 0xE000 <= c < 0x110000

  type Name = seq<CodePoint>

  /** The UTF-8 encoding, section 3 of RFC 3629. */
  function Utf8Char(c: CodePoint): (s: seq<byte>)
    ensures |s| >= 1 && (|s| == 1 <==> c < 0x80)
  {
    if c < 0x80 then [c]
    else if c < 0x800 then [0xC0 + c / 64, 0x80 + c % 64]
    else if c < 0x10000 then [0xE0 + c / 4096, 0x80 + (c / 64) % 64, 0x80 + c % 64]
    else [0xF0 + c / 262144, 0x80 + (c / 4096) % 64, 0x80 + (c / 64) % 64, 0x80 + c % 64]
  }

  /** The character that a sequence of one to four bytes stands for, by the table of that section. */
  function FromUtf8(s: seq<byte>): int {
    if |s| == 1 && s[0] < 0x80 then s[0]
    else if |s| == 2 && 0xC0 <= s[0] < 0xE0 then (s[0] - 0xC0) * 64 + Tail(s, 1)
    else if |s| == 3 && 0xE0 <= s[0] < 0xF0 then (s[0] - 0xE0) * 4096 + Tail(s, 1) * 64 + Tail(s, 2)
    else if |s| == 4 && 0xF0 <= s[0] < 0xF8 then (s[0] - 0xF0) * 262144 + Tail(s, 1) * 4096 + Tail(s, 2) * 64 + Tail(s, 3)
    else -1
  }

  /** The six bits of a continuation byte. */
  function Tail(s: seq<byte>, i: nat): int
    requires i < |s|
  {
    if 0x80 <= s[i] < 0xC0 then s[i] - 0x80 else -0x1000_0000
  }

  /** The encoding can be read back, and no shorter sequence stands for the character. */
  lemma Utf8ReadsBack(c: CodePoint, s: seq<byte>)
    ensures FromUtf8(Utf8Char(c)) == c
    ensures FromUtf8(s) == c ==> |s| >= |Utf8Char(c)|
  {
    SixBits(c);
    SixBits(c / 64);
    SixBits(c / 4096);
    Quotients(c);
    FewBytes(s);
  }

  lemma SixBits(c: nat)
    ensures c == 64 * (c / 64) + c % 64 && c % 64 < 64
  {
  }

  lemma Quotients(c: nat)
    ensures c / 4096 == (c / 64) / 64 && c / 262144 == (c / 4096) / 64
  {
  }

  lemma FewBytes(s: seq<byte>)
    ensures |s| <= 1 ==> FromUtf8(s) < 0x80
    ensures |s| == 2 ==> FromUtf8(s) < 0x800
    ensures |s| == 3 ==> FromUtf8(s) < 0x10000
  {
  }

  function Utf8(s: Name): (b: seq<byte>)
    ensures |b| >= |s|
  {
    if s == [] then [] else Utf8Char(s[0]) + Utf8(s[1..])
  }

  predicate Ascii(s: Name) { forall i :: 0 <= i < |s| ==> s[i] < 0x80 }

  lemma {:induction false} Utf8Length(s: Name)
    ensures |Utf8(s)| == |s| <==> Ascii(s)
  {
    if s != [] {
      Utf8Length(s[1..]);
      assert Ascii(s) <==> s[0] < 0x80 && Ascii(s[1..]) by {
        assert forall i :: 0 < i < |s| ==> s[i] == s[1..][i - 1];
      }
    }
  }

  /** The bytes `b` stand at `at` behind their length. */
  predicate NameIs(p: seq<byte>, at: nat, b: seq<byte>) {
    && at + 2 + |b| <= |p| && |b| < Pow256(2)
    && NumberIn(p, at, 2) == |b| && p[at + 2..at + 2 + |b|] == b
  }

  /** The client's encoding: the length counts characters, not bytes. */
  function NameBytes(s: Name): seq<byte> { LittleEndian(|s|, 2) + Utf8(s) }

  method ReadName(p: seq<byte>, cursor: nat) returns (ok: bool, name: seq<byte>, cursor': nat)
    ensures ok ==> NameIs(p, cursor, name) && cursor' == cursor + 2 + |name|
    ensures forall b :: NameIs(p, cursor, b) ==> ok && name == b
  {
    var n;
    ok, n, cursor' := ReadScalar(p, cursor, 2);
    if !ok || cursor' + n > |p| {
      return false, [], cursor';
    }
    name := p[cursor'..cursor' + n];
    cursor' := cursor' + n;
  }

  /**
   The server reads a name back, and goes on right behind it, exactly when all
   characters are ASCII; otherwise the last bytes of the name are left over.
   */
  lemma NameReadsBack(prefix: seq<byte>, s: Name, rest: seq<byte>)
    requires |s| < Pow256(2)
    ensures NameIs(prefix + NameBytes(s) + rest, |prefix|, Utf8(s)) <==> Ascii(s)
    ensures Ascii(s) <==> |NameBytes(s)| == 2 + |s|
    ensures NameIs(prefix + NameBytes(s) + rest, |prefix|, Utf8(s)[..|s|])
  {
    hide Utf8, LittleEndian, FromLittleEndian, Pow256;
    Utf8Length(s);
    LittleEndianFits(|s|, 2);
    var p, first := prefix + NameBytes(s) + rest, LittleEndian(|s|, 2);
    assert p == prefix + first + (Utf8(s) + rest);
    PieceAt(prefix, first, Utf8(s) + rest);
    assert p == (prefix + first) + Utf8(s)[..|s|] + (Utf8(s)[|s|..] + rest);
    PieceAt(prefix + first, Utf8(s)[..|s|], Utf8(s)[|s|..] + rest);
    assert Ascii(s) ==> Utf8(s)[..|s|] == Utf8(s);
  }
}
