/**
 The order in which recovery meets the segment files: it sorts their paths as
 text, so "segment_10.mimicdb" comes before "segment_2.mimicdb".
 */
module DirectoryOrder {
  const DIGITS := "0123456789"

  function Decimal(n: nat): string {
    if n < 10 then [DIGITS[n]] else Decimal(n / 10) + [DIGITS[n % 10]]
  }

  function FileName(n: nat): string { "segment_" + Decimal(n) + ".mimicdb" }

  lemma FileNames()
    ensures FileName(0) == "segment_0.mimicdb" && FileName(12) == "segment_12.mimicdb"
  {
    assert Decimal(12) == Decimal(1) + "2" && Decimal(1) == "1";
  }

  /** The lexicographic order on text. */
  predicate Before(a: string, b: string) {
    b != [] && (a == [] || a[0] < b[0] || (a[0] == b[0] && Before(a[1..], b[1..])))
  }

  ghost predicate SortedByName(order: seq<nat>) {
    forall i, j :: 0 <= i < j < |order| ==> Before(FileName(order[i]), FileName(order[j]))
  }

  /** The order of a directory that holds the files `files`. */
  ghost predicate IsListing(order: seq<nat>, files: set<nat>) {
    SortedByName(order) && (forall i :: i in order <==> i in files)
  }

  /** The members of `order` below `n`. */
  function Below(order: seq<nat>, n: nat): (kept: seq<nat>)
    ensures forall i :: i in kept <==> i in order && i < n
  {
    if order == [] then []
    else (if order[0] < n then [order[0]] else []) + Below(order[1..], n)
  }

  function Iota(n: nat): (s: seq<nat>)
    ensures |s| == n && forall i :: 0 <= i < n ==> s[i] == i
  {
    seq(n, i requires 0 <= i < n => i)
  }

  lemma {:induction false} CommonPrefix(p: string, a: string, b: string)
    ensures Before(p + a, p + b) <==> Before(a, b)
  {
    if p == [] {
      assert p + a == a && p + b == b;
    } else {
      CommonPrefix(p[1..], a, b);
      assert (p + a)[1..] == p[1..] + a && (p + b)[1..] == p[1..] + b;
    }
  }

  lemma Irreflexive(a: string)
    ensures !Before(a, a)
  {
  }

  /** One-digit numbers are ordered alike as text and as numbers. */
  lemma DigitOrder(i: nat, j: nat)
    requires i < 10 && j < 10
    ensures Before(FileName(i), FileName(j)) <==> i < j
  {
    var a, b := Decimal(i) + ".mimicdb", Decimal(j) + ".mimicdb";
    assert FileName(i) == "segment_" + a && FileName(j) == "segment_" + b;
    CommonPrefix("segment_", a, b);
    if i == j {
      Irreflexive(a);
    } else {
      assert a[0] == DIGITS[i] && b[0] == DIGITS[j];
      DigitsAscend(i, j);
    }
  }

  lemma DigitsAscend(i: nat, j: nat)
    requires i < 10 && j < 10
    ensures DIGITS[i] < DIGITS[j] <==> i < j
  {
  }

  lemma {:induction false} BelowIsSorted(order: seq<nat>, n: nat)
    requires SortedByName(order)
    ensures SortedByName(Below(order, n))
  {
    if order != [] {
      var rest := Below(order[1..], n);
      assert SortedByName(order[1..]);
      BelowIsSorted(order[1..], n);
      if order[0] < n {
        var kept := [order[0]] + rest;
        forall i, j | 0 <= i < j < |kept|
          ensures Before(FileName(kept[i]), FileName(kept[j]))
        {
          if i == 0 {
            assert rest[j - 1] in order[1..];
            var k :| 0 <= k < |order[1..]| && order[1..][k] == rest[j - 1];
            assert order[k + 1] == kept[j];
          } else {
            assert kept[i] == rest[i - 1] && kept[j] == rest[j - 1];
          }
        }
      }
    }
  }

  function Elements(s: seq<nat>): set<nat> { set x | x in s }

  lemma {:induction false} DistinctSize(s: seq<nat>)
    requires forall i, j :: 0 <= i < j < |s| ==> s[i] != s[j]
    ensures |Elements(s)| == |s|
  {
    if s == [] {
      assert Elements(s) == {};
    } else {
      var t := s[..|s| - 1];
      DistinctSize(t);
      assert s == t + [s[|s| - 1]];
      assert Elements(s) == Elements(t) + {s[|s| - 1]};
    }
  }

  lemma DistinctBelow(s: seq<nat>, n: nat)
    requires forall i: nat :: i in s <==> i < n
    requires forall i, j :: 0 <= i < j < |s| ==> s[i] != s[j]
    ensures |s| == n
  {
    DistinctSize(s);
    DistinctSize(Iota(n));
    forall i: nat
      ensures i in s <==> i in Iota(n)
    {
      if i < n {
        assert Iota(n)[i] == i;
      }
    }
    assert Elements(s) == Elements(Iota(n));
  }

  ghost predicate Ascending(s: seq<nat>) { forall i, j :: 0 <= i < j < |s| ==> s[i] < s[j] }

  lemma {:induction false} AtLeastItsPlace(s: seq<nat>, j: nat)
    requires Ascending(s) && j < |s|
    ensures s[j] >= j
  {
    if j != 0 {
      AtLeastItsPlace(s, j - 1);
    }
  }

  lemma {:induction false} AtMostItsPlace(s: seq<nat>, n: nat, j: nat)
    requires Ascending(s) && j < |s| && s[|s| - 1] < n
    ensures s[j] + |s| <= n + j
    decreases |s| - j
  {
    if j != |s| - 1 {
      AtMostItsPlace(s, n, j + 1);
    }
  }

  /** An ascending sequence of all the numbers below `n` is 0, 1, ..., n - 1. */
  lemma AscendingIsIota(s: seq<nat>, n: nat)
    requires Ascending(s)
    requires forall i: nat :: i in s <==> i < n
    ensures s == Iota(n)
  {
    DistinctBelow(s, n);
    forall j | 0 <= j < n
      ensures s[j] == j
    {
      assert s[n - 1] in s;
      AtLeastItsPlace(s, j);
      AtMostItsPlace(s, n, j);
    }
  }

  /** Recovery meets the first `n` files in the order of their numbers exactly when there are at most ten. */
  lemma ListingIsNumeric(order: seq<nat>, files: set<nat>, n: nat)
    requires IsListing(order, files)
    requires forall i: nat :: i < n ==> i in files
    ensures Below(order, n) == Iota(n) <==> n <= 10
  {
    var kept := Below(order, n);
    BelowIsSorted(order, n);
    if n <= 10 {
      forall i, j | 0 <= i < j < |kept|
        ensures kept[i] < kept[j]
      {
        assert kept[i] in kept && kept[j] in kept;
        DigitOrder(kept[i], kept[j]);
      }
      AscendingIsIota(kept, n);
    } else if kept == Iota(n) {
      assert Before(FileName(kept[2]), FileName(kept[10]));
      TenAmongDigits(2);
    }
  }

  /** The files of a listing: every number below `n` exactly once. */
  lemma ListedOnce(order: seq<nat>, files: set<nat>, n: nat)
    requires IsListing(order, files)
    requires forall i: nat :: i < n ==> i in files
    ensures var kept := Below(order, n);
            && |kept| == n && (forall i: nat :: i in kept <==> i < n)
            && forall i, j :: 0 <= i < j < |kept| ==> kept[i] != kept[j]
  {
    var kept := Below(order, n);
    BelowIsSorted(order, n);
    forall i, j | 0 <= i < j < |kept|
      ensures kept[i] != kept[j]
    {
      Irreflexive(FileName(kept[i]));
    }
    DistinctBelow(kept, n);
  }

  /** The place of a file among the first eleven: "segment_10" follows "segment_1". */
  function Rank(i: nat): nat {
    if i < 2 then i else if i == 10 then 2 else i + 1
  }

  lemma RankOrder(i: nat, j: nat)
    requires i < 11 && j < 11
    ensures Before(FileName(i), FileName(j)) <==> Rank(i) < Rank(j)
  {
    if i < 10 && j < 10 {
      DigitOrder(i, j);
    } else if i == j {
      Irreflexive(FileName(i));
    } else if i == 10 {
      TenAmongDigits(j);
    } else {
      TenAmongDigits(i);
    }
  }

  lemma TenAmongDigits(j: nat)
    requires j < 10
    ensures Before(FileName(10), FileName(j)) <==> j >= 2
    ensures Before(FileName(j), FileName(10)) <==> j < 2
  {
    assert Decimal(10) == "10" by {
      assert Decimal(1) == "1";
    }
    var a, b := "10.mimicdb", Decimal(j) + ".mimicdb";
    assert FileName(10) == "segment_" + a && FileName(j) == "segment_" + b;
    CommonPrefix("segment_", a, b);
    CommonPrefix("segment_", b, a);
    assert b[0] == DIGITS[j] && a[0] == DIGITS[1];
    if j == 1 {
      assert a == "1" + "0.mimicdb" && b == "1" + ".mimicdb";
      CommonPrefix("1", "0.mimicdb", ".mimicdb");
      CommonPrefix("1", ".mimicdb", "0.mimicdb");
    } else {
      DigitsAscend(1, j);
      DigitsAscend(j, 1);
    }
  }

  /** The first eleven files in the order of their names. */
  lemma ElevenFiles(order: seq<nat>, files: set<nat>)
    requires IsListing(order, files)
    requires forall i: nat :: i < 11 ==> i in files
    ensures Below(order, 11) == [0, 1, 10, 2, 3, 4, 5, 6, 7, 8, 9]
  {
    hide FileName, Before;
    var kept := Below(order, 11);
    BelowIsSorted(order, 11);
    var ranks := seq(|kept|, k requires 0 <= k < |kept| => Rank(kept[k]));
    forall i, j | 0 <= i < j < |ranks|
      ensures ranks[i] < ranks[j]
    {
      assert kept[i] in kept && kept[j] in kept;
      RankOrder(kept[i], kept[j]);
    }
    RanksCovered(kept, ranks);
    AscendingIsIota(ranks, 11);
    assert |kept| == 11;
    forall k | 0 <= k < 11
      ensures kept[k] == [0, 1, 10, 2, 3, 4, 5, 6, 7, 8, 9][k]
    {
      assert Rank(kept[k]) == k && kept[k] in kept;
    }
  }

  lemma RanksCovered(kept: seq<nat>, ranks: seq<nat>)
    requires forall i: nat :: i in kept <==> i < 11
    requires |ranks| == |kept| && forall k :: 0 <= k < |kept| ==> ranks[k] == Rank(kept[k])
    ensures forall r: nat :: r in ranks <==> r < 11
  {
    forall r: nat
      ensures r in ranks <==> r < 11
    {
      if r in ranks {
        var k :| 0 <= k < |ranks| && ranks[k] == r;
        assert kept[k] in kept;
      }
      if r < 11 {
        var i := if r < 2 then r else if r == 2 then 10 else r - 1;
        assert i in kept && Rank(i) == r;
        var k :| 0 <= k < |kept| && kept[k] == i;
        assert ranks[k] == r;
      }
    }
  }
}
