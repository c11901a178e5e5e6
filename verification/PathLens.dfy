/**
 Dotted paths into JSON documents: looking up, setting, deleting and renaming.
 A path is the list of its parts, of which there is at least one.
 */
module PathLens {
  import opened Wrappers

  /** `Scalar` stands for every value that is neither a list nor a dictionary. */
  datatype Json = Scalar(text: string) | Arr(items: seq<Json>) | Obj(fields: map<string, Json>)

  type Path = seq<string>

  const EMPTY_DOCUMENT := Obj(map[])

  predicate IsContainer(j: Json) { j.Arr? || j.Obj? }

  /** Python's isdigit, for ASCII. */
  predicate IsDigits(part: string) { part != "" && forall i :: 0 <= i < |part| ==> '0' <= part[i] <= '9' }

  function Number(part: string): nat
    requires IsDigits(part)
  {
    var front := part[..|part| - 1];
    (if front == "" then 0 else 10 * Number(front)) + (part[|part| - 1] as int - '0' as int)
  }

  lemma NumberExamples()
    ensures Number("0") == 0 && Number("7") == 7 && Number("42") == Number("042") == 42
  {
    assert "42"[..1] == "4" && "042"[..2] == "04" && "04"[..1] == "0";
  }

  // ---------- Looking up ----------

  /** One step down: digits index a list, anything else names a field of a dictionary. */
  function Child(j: Json, part: string): Option<Json> {
    if j.Arr? && IsDigits(part) then (if Number(part) < |j.items| then Some(j.items[Number(part)]) else None)
    else if j.Obj? && part in j.fields then Some(j.fields[part])
    else None
  }

  function Lookup(j: Json, p: Path): Option<Json> {
    if p == [] then Some(j)
    else
      match Child(j, p[0])
      case None => None
      case Some(child) => Lookup(child, p[1..])
  }

  /** _path_lookup. */
  method PathLookup(doc: Json, p: Path) returns (found: Option<Json>)
    ensures found == Lookup(doc, p)
  {
    var current := doc;
    for i := 0 to |p|
      invariant Lookup(doc, p) == Lookup(current, p[i..])
    {
      assert p[i..][0] == p[i] && p[i..][1..] == p[i + 1..];
      var part := p[i];
      if current.Arr? && IsDigits(part) {
        if Number(part) >= |current.items| {
          return None;
        }
        current := current.items[Number(part)];
        continue;
      }
      if !current.Obj? || part !in current.fields {
        return None;
      }
      current := current.fields[part];
    }
    return Some(current);
  }

  lemma {:induction false} LookupAppend(j: Json, p: Path, q: Path)
    ensures Lookup(j, p + q) == match Lookup(j, p) case None => None case Some(x) => Lookup(x, q)
    decreases |p|
  {
    if p == [] {
      assert p + q == q;
    } else {
      assert (p + q)[0] == p[0] && (p + q)[1..] == p[1..] + q;
      if Child(j, p[0]).Some? {
        LookupAppend(Child(j, p[0]).value, p[1..], q);
      }
    }
  }

  // ---------- Setting ----------

  /** The list, filled up with empty documents so that it has the index `n`. */
  function Padded(items: seq<Json>, n: nat): (r: seq<Json>)
    ensures |r| > n && |r| >= |items|
    ensures forall i :: 0 <= i < |items| ==> r[i] == items[i]
    ensures |items| > n ==> r == items
  {
    if |items| > n then items else items + seq(n + 1 - |items|, i => EMPTY_DOCUMENT)
  }

  /** What stands where a longer path goes on: whatever is not a container gives way to an empty document. */
  function Room(j: Json): Json { if IsContainer(j) then j else EMPTY_DOCUMENT }

  /** _set_path; None is the exception for a path through something that is not a document. */
  function SetPath(j: Json, p: Path, v: Json): Option<Json>
    requires p != []
    decreases |p|
  {
    if j.Arr? && IsDigits(p[0]) then
      var n := Number(p[0]);
      var items := Padded(j.items, n);
      if |p| == 1 then Some(Arr(items[n := v]))
      else
        match SetPath(Room(items[n]), p[1..], v)
        case None => None
        case Some(child) => Some(Arr(items[n := child]))
    else if !j.Obj? then None
    else if |p| == 1 then Some(Obj(j.fields[p[0] := v]))
    else
      var below := if p[0] in j.fields then Room(j.fields[p[0]]) else EMPTY_DOCUMENT;
      match SetPath(below, p[1..], v)
      case None => None
      case Some(child) => Some(Obj(j.fields[p[0] := child]))
  }

  /** The document in which the path leads to `v`, and nothing else is. */
  function Branch(p: Path, v: Json): Json {
    if p == [] then v else Obj(map[p[0] := Branch(p[1..], v)])
  }

  /** Where nothing is, setting builds dictionaries, also for parts that are digits. */
  lemma {:induction false} SetBuildsBranch(p: Path, v: Json)
    requires p != []
    ensures SetPath(Obj(map[]), p, v) == Some(Branch(p, v))
    decreases |p|
  {
    if |p| == 1 {
      assert Branch(p, v) == Obj(map[p[0] := Branch(p[1..], v)]) == Obj(map[p[0] := v]);
    } else {
      SetBuildsBranch(p[1..], v);
    }
  }

  /** An index behind the end of a list: empty documents fill the gap, and the branch is its last item. */
  lemma SetExtendsList(items: seq<Json>, p: Path, v: Json)
    requires p != [] && IsDigits(p[0]) && Number(p[0]) >= |items|
    ensures var n := Number(p[0]);
            SetPath(Arr(items), p, v) == Some(Arr(items + seq(n - |items|, i => Obj(map[])) + [Branch(p[1..], v)]))
  {
    var n := Number(p[0]);
    var padded := Padded(items, n);
    if |p| > 1 {
      SetBuildsBranch(p[1..], v);
    }
    assert padded[n := Branch(p[1..], v)] == items + seq(n - |items|, i => Obj(map[])) + [Branch(p[1..], v)];
  }

  /** What is set can be looked up. */
  lemma {:induction false} GetAfterSet(j: Json, p: Path, v: Json)
    requires p != [] && SetPath(j, p, v).Some?
    ensures Lookup(SetPath(j, p, v).value, p) == Some(v)
    decreases |p|
  {
    var k := SetPath(j, p, v).value;
    if |p| == 1 {
      assert p[1..] == [];
      assert Child(k, p[0]) == Some(v);
    } else if j.Arr? && IsDigits(p[0]) {
      var n := Number(p[0]);
      GetAfterSet(Room(Padded(j.items, n)[n]), p[1..], v);
    } else {
      var below := if p[0] in j.fields then Room(j.fields[p[0]]) else EMPTY_DOCUMENT;
      GetAfterSet(below, p[1..], v);
    }
  }

  /** The part at `n` meets something that is there and cannot be entered: a list without an index, or a bare value as the document. */
  predicate BlockedAt(j: Json, p: Path, n: nat)
    requires n < |p|
  {
    match Lookup(j, p[..n])
    case None => false
    case Some(x) => (x.Arr? && !IsDigits(p[n])) || (n == 0 && x.Scalar?)
  }

  /** Setting fails exactly when the path leads to a list with a part that is no index. */
  lemma {:induction false} SetFailsExactly(j: Json, p: Path, v: Json)
    requires p != []
    ensures SetPath(j, p, v).None? <==> exists n :: 0 <= n < |p| && BlockedAt(j, p, n)
    decreases |p|
  {
    assert p[..0] == [];
    if j.Scalar? || (j.Arr? && !IsDigits(p[0])) {
      assert BlockedAt(j, p, 0);
    } else {
      assert !BlockedAt(j, p, 0);
      if |p| > 1 {
        var below := match Child(j, p[0]) case None => EMPTY_DOCUMENT case Some(x) => Room(x);
        SetStep(j, p, v);
        SetFailsExactly(below, p[1..], v);
        forall n | 0 < n < |p|
          ensures BlockedAt(j, p, n) <==> BlockedAt(below, p[1..], n - 1)
        {
          BlockedBelow(j, p, n);
        }
        if n :| 0 <= n < |p[1..]| && BlockedAt(below, p[1..], n) {
          assert BlockedAt(j, p, n + 1);
        }
      }
    }
  }

  /** Below the first part everything depends on what room the first part leads to. */
  lemma SetStep(j: Json, p: Path, v: Json)
    requires |p| > 1 && !j.Scalar? && !(j.Arr? && !IsDigits(p[0]))
    ensures var below := match Child(j, p[0]) case None => EMPTY_DOCUMENT case Some(x) => Room(x);
            && IsContainer(below)
            && (SetPath(j, p, v).None? <==> SetPath(below, p[1..], v).None?)
            && (SetPath(j, p, v).Some? ==> Child(SetPath(j, p, v).value, p[0]) == SetPath(below, p[1..], v))
  {
  }

  lemma BlockedBelow(j: Json, p: Path, n: nat)
    requires 0 < n < |p| && !BlockedAt(j, p, 0) && p[..0] == []
    ensures var below := match Child(j, p[0]) case None => EMPTY_DOCUMENT case Some(x) => Room(x);
            BlockedAt(j, p, n) <==> BlockedAt(below, p[1..], n - 1)
  {
    assert p[..n][0] == p[0] && p[..n][1..] == p[1..][..n - 1];
    var below := match Child(j, p[0]) case None => EMPTY_DOCUMENT case Some(x) => Room(x);
    var rest := p[1..][..n - 1];
    match Child(j, p[0])
    case None => NothingThere(rest);
    case Some(x) =>
      assert Lookup(j, p[..n]) == Lookup(x, rest);
      if !IsContainer(x) {
        NothingThere(rest);
        if rest == [] {
          assert Lookup(x, rest) == Some(x) && Lookup(below, rest) == Some(below);
        } else {
          assert Child(x, rest[0]).None?;
        }
      }
  }

  lemma NothingThere(p: Path)
    ensures p != [] ==> Lookup(EMPTY_DOCUMENT, p).None?
  {
  }

  // ---------- Paths that have nothing to do with each other ----------

  /** The two parts lead to the same place of `j`; indices of a list are compared as numbers. */
  predicate SameStep(j: Json, a: string, b: string) {
    if j.Arr? && IsDigits(a) && IsDigits(b) then Number(a) == Number(b) else a == b
  }

  /** The paths part ways at something that `q` reaches in `j`. */
  predicate Diverges(j: Json, p: Path, q: Path)
    decreases |p|
  {
    p != [] && q != [] &&
    (!SameStep(j, p[0], q[0]) || (Child(j, q[0]).Some? && Diverges(Child(j, q[0]).value, p[1..], q[1..])))
  }

  /** `q` is there, or it is a missing field of a dictionary that is there. */
  predicate Settled(j: Json, q: Path) {
    Lookup(j, q).Some? || (q != [] && Lookup(j, q[..|q| - 1]).Some? && Lookup(j, q[..|q| - 1]).value.Obj?)
  }

  lemma SettledStep(j: Json, q: Path)
    requires |q| > 1 && Settled(j, q)
    ensures Child(j, q[0]).Some? && Settled(Child(j, q[0]).value, q[1..])
  {
    assert q[..|q| - 1][0] == q[0] && q[..|q| - 1][1..] == q[1..][..|q| - 2];
  }

  /** Setting one path leaves every path alone that diverges from it. */
  lemma {:induction false} SetLeavesOthers(j: Json, p: Path, v: Json, q: Path)
    requires p != [] && SetPath(j, p, v).Some? && Diverges(j, p, q) && Settled(j, q)
    ensures Lookup(SetPath(j, p, v).value, q) == Lookup(j, q)
    decreases |p|
  {
    var k := SetPath(j, p, v).value;
    if |q| == 1 {
      assert q[1..] == [] && q[..0] == [];
    } else {
      SettledStep(j, q);
    }
    if !SameStep(j, p[0], q[0]) {
      SiblingStays(j, p, v, q[0]);
    } else if |p| > 1 {
      assert Child(j, p[0]) == Child(j, q[0]);
      var child := Child(j, q[0]).value;
      assert q[1..] != [];
      SettledStep(j, q);
      ContainerBelow(child, q[1..]);
      SetStep(j, p, v);
      SetLeavesOthers(child, p[1..], v, q[1..]);
      StepAgrees(j, p, v, q[0]);
    }
  }

  /** Another child of the same place is not touched. */
  lemma SiblingStays(j: Json, p: Path, v: Json, b: string)
    requires p != [] && SetPath(j, p, v).Some? && !SameStep(j, p[0], b)
    requires Child(j, b).Some? || j.Obj?
    ensures Child(SetPath(j, p, v).value, b) == Child(j, b)
  {
  }

  lemma ContainerBelow(j: Json, q: Path)
    requires q != [] && Settled(j, q)
    ensures IsContainer(j)
  {
    if |q| == 1 {
      assert q[..0] == [] && q[1..] == [];
    }
  }

  lemma StepAgrees(j: Json, p: Path, v: Json, b: string)
    requires p != [] && SetPath(j, p, v).Some? && SameStep(j, p[0], b)
    ensures Child(SetPath(j, p, v).value, b) == Child(SetPath(j, p, v).value, p[0])
  {
  }

  // ---------- Deleting ----------

  function Without(items: seq<Json>, n: nat): seq<Json>
    requires n < |items|
  {
    items[..n] + items[n + 1..]
  }

  /** _del_path: a path that is not there is left alone. */
  function DelPath(j: Json, p: Path): Json
    requires p != []
    decreases |p|
  {
    match Child(j, p[0])
    case None => j
    case Some(child) =>
      if j.Arr? then Arr(if |p| == 1 then Without(j.items, Number(p[0])) else j.items[Number(p[0]) := DelPath(child, p[1..])])
      else Obj(if |p| == 1 then j.fields - {p[0]} else j.fields[p[0] := DelPath(child, p[1..])])
  }

  /** What holds the last part of the path. */
  function Holder(j: Json, p: Path): Option<Json>
    requires p != []
  {
    Lookup(j, p[..|p| - 1])
  }

  /**
   After deleting, the path is absent, except that deleting from a list moves
   the next item, if there is one, to the same index.
   */
  lemma {:induction false} DeleteExactly(j: Json, p: Path)
    requires p != []
    ensures Lookup(DelPath(j, p), p) ==
            match Holder(j, p)
            case None => None
            case Some(h) =>
              if h.Arr? && IsDigits(p[|p| - 1]) && Number(p[|p| - 1]) + 1 < |h.items| then Some(h.items[Number(p[|p| - 1]) + 1])
              else None
    decreases |p|
  {
    if |p| == 1 {
      assert p[..0] == [] && p[1..] == [];
    } else {
      assert p[..|p| - 1][0] == p[0] && p[..|p| - 1][1..] == p[1..][..|p| - 2];
      assert p[1..][|p| - 2] == p[|p| - 1];
      if Child(j, p[0]).Some? {
        DeleteExactly(Child(j, p[0]).value, p[1..]);
        DeleteStep(j, p);
      }
    }
  }

  lemma DeleteStep(j: Json, p: Path)
    requires |p| > 1 && Child(j, p[0]).Some?
    ensures Child(DelPath(j, p), p[0]) == Some(DelPath(Child(j, p[0]).value, p[1..]))
  {
  }

  /** A path that is not there is left alone. */
  lemma {:induction false} DeleteMissing(j: Json, p: Path)
    requires p != [] && Lookup(j, p).None?
    ensures DelPath(j, p) == j
    decreases |p|
  {
    if |p| == 1 {
      assert p[1..] == [];
    } else if Child(j, p[0]).Some? {
      DeleteMissing(Child(j, p[0]).value, p[1..]);
    }
  }

  /** `q` diverges from `p` above its last part, or at a dictionary that holds the last part. */
  predicate Apart(j: Json, p: Path, q: Path)
    requires p != []
  {
    || (|p| > 1 && Diverges(j, p[..|p| - 1], q))
    || (Holder(j, p).Some? && Holder(j, p).value.Obj? && Diverges(j, p, q))
  }

  lemma ApartStep(j: Json, p: Path, q: Path)
    requires |p| > 1 && Child(j, p[0]).Some? && Apart(j, p, q) && q != [] && SameStep(j, p[0], q[0])
    ensures Child(j, q[0]) == Child(j, p[0]) && q[1..] != [] && Apart(Child(j, p[0]).value, p[1..], q[1..])
  {
    var child, rest := Child(j, p[0]).value, p[1..];
    assert p[..|p| - 1][0] == p[0] && p[..|p| - 1][1..] == rest[..|rest| - 1];
    assert Holder(j, p) == Holder(child, rest);
    if Diverges(j, p[..|p| - 1], q) {
      assert Diverges(child, rest[..|rest| - 1], q[1..]);
    } else {
      assert Diverges(child, rest, q[1..]);
    }
  }

  /** Deleting leaves the paths alone that lie apart. */
  lemma {:induction false} DeleteLeavesOthers(j: Json, p: Path, q: Path)
    requires p != [] && Apart(j, p, q)
    ensures Lookup(DelPath(j, p), q) == Lookup(j, q)
    decreases |p|
  {
    if |p| == 1 {
      assert p[..0] == [] && p[1..] == [];
      assert Child(j, q[0]).Some? ==> !Diverges(Child(j, q[0]).value, p[1..], q[1..]);
    } else if Child(j, p[0]).Some? {
      DeleteStep(j, p);
      if SameStep(j, p[0], q[0]) {
        ApartStep(j, p, q);
        DeleteLeavesOthers(Child(j, p[0]).value, p[1..], q[1..]);
        StepsAlike(j, DelPath(j, p), p[0], q[0]);
      } else {
        OtherChildStays(j, p, q[0]);
      }
    }
  }

  /** Parts that lead to the same place still do after a change below it. */
  lemma StepsAlike(j: Json, k: Json, a: string, b: string)
    requires SameStep(j, a, b) && Child(k, a).Some? && (j.Arr? <==> k.Arr?)
    ensures Child(k, b) == Child(k, a)
  {
  }

  lemma OtherChildStays(j: Json, p: Path, b: string)
    requires |p| > 1 && Child(j, p[0]).Some? && !SameStep(j, p[0], b)
    ensures Child(DelPath(j, p), b) == Child(j, b)
  {
  }

  /** What the index `m` of a list finds once the item `n` is gone. */
  function ItemAfter(items: seq<Json>, n: nat, m: nat): Option<Json> {
    if m < n then (if m < |items| then Some(items[m]) else None)
    else if m + 1 < |items| then Some(items[m + 1]) else None
  }

  /**
   Deleting an item of a list: the items below it stay, the items above it move
   down by one, and what lies below any of them goes along.
   */
  lemma {:induction false} DeleteMovesItems(j: Json, p: Path, part: string, q: Path)
    requires p != [] && Holder(j, p).Some? && Holder(j, p).value.Arr? && IsDigits(p[|p| - 1]) && IsDigits(part)
    requires Number(p[|p| - 1]) < |Holder(j, p).value.items|
    ensures Lookup(DelPath(j, p), p[..|p| - 1] + [part] + q) ==
            match ItemAfter(Holder(j, p).value.items, Number(p[|p| - 1]), Number(part))
            case None => None
            case Some(item) => Lookup(item, q)
    decreases |p|
  {
    var path := p[..|p| - 1] + [part] + q;
    if |p| == 1 {
      assert p[..0] == [] && path[0] == part && path[1..] == q;
    } else {
      assert p[..|p| - 1][0] == p[0] && p[..|p| - 1][1..] == p[1..][..|p| - 2];
      assert path[0] == p[0] && path[1..] == p[1..][..|p| - 2] + [part] + q;
      assert p[1..][|p| - 2] == p[|p| - 1];
      DeleteStep(j, p);
      DeleteMovesItems(Child(j, p[0]).value, p[1..], part, q);
    }
  }

  // ---------- Renaming ----------

  /** _rename_path; None is the exception of the second step. */
  function RenamePath(j: Json, from: Path, to: Path): Option<Json>
    requires from != [] && to != []
  {
    match Lookup(j, from)
    case None => Some(j)
    case Some(v) => SetPath(DelPath(j, from), to, v)
  }

  /**
   A rename that succeeds makes the new path yield the old value. The old path
   is gone if the new one diverges from it, except that in a list it shows the
   next item.
   */
  lemma RenameMoves(j: Json, from: Path, to: Path)
    requires from != [] && to != [] && Lookup(j, from).Some? && RenamePath(j, from, to).Some?
    ensures Lookup(RenamePath(j, from, to).value, to) == Lookup(j, from)
    ensures Holder(j, from).Some? && Holder(j, from).value.Obj? && Diverges(DelPath(j, from), to, from) ==>
              Lookup(RenamePath(j, from, to).value, from).None?
    ensures Holder(j, from).Some? && (Holder(j, from).value.Arr? ==> IsDigits(from[|from| - 1]))
    ensures Holder(j, from).value.Arr? && Diverges(DelPath(j, from), to, from) &&
            Number(from[|from| - 1]) + 1 < |Holder(j, from).value.items| ==>
              Lookup(RenamePath(j, from, to).value, from) == Some(Holder(j, from).value.items[Number(from[|from| - 1]) + 1])
  {
    var v, mid := Lookup(j, from).value, DelPath(j, from);
    GetAfterSet(mid, to, v);
    HolderOf(j, from);
    if Diverges(mid, to, from) {
      DeleteExactly(j, from);
      if Holder(j, from).value.Obj? {
        HolderStays(j, from);
        SetLeavesOthers(mid, to, v, from);
      } else if Number(from[|from| - 1]) + 1 < |Holder(j, from).value.items| {
        SetLeavesOthers(mid, to, v, from);
      }
    }
  }

  /** What is there has a holder: a dictionary, or a list and an index. */
  lemma HolderOf(j: Json, p: Path)
    requires p != [] && Lookup(j, p).Some?
    ensures Holder(j, p).Some? && IsContainer(Holder(j, p).value)
    ensures Holder(j, p).value.Arr? ==> IsDigits(p[|p| - 1]) && Number(p[|p| - 1]) < |Holder(j, p).value.items|
  {
    var n := |p| - 1;
    assert p == p[..n] + [p[n]];
    LookupAppend(j, p[..n], [p[n]]);
  }

  /** Deleting a field leaves its dictionary in place. */
  lemma {:induction false} HolderStays(j: Json, p: Path)
    requires p != [] && Holder(j, p).Some? && Holder(j, p).value.Obj?
    ensures Holder(DelPath(j, p), p).Some? && Holder(DelPath(j, p), p).value.Obj?
    decreases |p|
  {
    if |p| == 1 {
      assert p[..0] == [];
    } else {
      assert p[..|p| - 1][0] == p[0] && p[..|p| - 1][1..] == p[1..][..|p| - 2];
      DeleteStep(j, p);
      HolderStays(Child(j, p[0]).value, p[1..]);
    }
  }

  /** Renaming leaves every path alone that lies apart from the old one and diverges from the new one. */
  lemma RenameLeavesOthers(j: Json, from: Path, to: Path, q: Path)
    requires from != [] && to != [] && Lookup(j, from).Some? && RenamePath(j, from, to).Some?
    requires Apart(j, from, q)
    requires Diverges(DelPath(j, from), to, q) && Lookup(j, q).Some?
    ensures Lookup(RenamePath(j, from, to).value, q) == Lookup(j, q)
  {
    DeleteLeavesOthers(j, from, q);
    SetLeavesOthers(DelPath(j, from), to, Lookup(j, from).value, q);
  }

  /** Renaming an item of a list moves the items above it down by one, where the new path diverges from them. */
  lemma RenameMovesItems(j: Json, from: Path, to: Path, part: string, q: Path)
    requires from != [] && to != [] && Lookup(j, from).Some? && RenamePath(j, from, to).Some?
    requires Holder(j, from).Some? && Holder(j, from).value.Arr? && IsDigits(part)
    requires var path, items := from[..|from| - 1] + [part] + q, Holder(j, from).value.items;
             && Diverges(DelPath(j, from), to, path)
             && IsDigits(from[|from| - 1]) && Number(from[|from| - 1]) < |items|
             && var item := ItemAfter(items, Number(from[|from| - 1]), Number(part));
                item.Some? && Lookup(item.value, q).Some?
    ensures var path, items := from[..|from| - 1] + [part] + q, Holder(j, from).value.items;
            Lookup(RenamePath(j, from, to).value, path) ==
            Lookup(ItemAfter(items, Number(from[|from| - 1]), Number(part)).value, q)
  {
    DeleteMovesItems(j, from, part, q);
    SetLeavesOthers(DelPath(j, from), to, Lookup(j, from).value, from[..|from| - 1] + [part] + q);
  }
}
