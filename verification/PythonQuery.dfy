/** The plain Python queries over a table in memory: the simple loops that every fast form must match. */
module PythonQuery {
  import opened Wrappers
  import opened Table
  import opened Predicates
  import opened ScanSpec
  import opened ScanRefinement
  import opened PredicateMask
  import opened Aggregation

  // ---------- What an aggregate request means ----------

  /** The fields to aggregate; `count` asks for a count as well. */
  datatype Request = Request(sum: Option<nat>, min: Option<nat>, max: Option<nat>, count: bool)

  /** An inner None is Python's None: the least number of nothing. */
  datatype Answer = Answer(sum: Option<real>, min: Option<Option<real>>, max: Option<Option<real>>, count: Option<nat>)

  predicate Names(field: Option<nat>, types: seq<FieldType>) {
    field.Some? ==> field.value < |types| && IsNumeric(types[field.value])
  }

  predicate RequestFits(q: Request, types: seq<FieldType>) {
    Names(q.sum, types) && Names(q.min, types) && Names(q.max, types)
  }

  /** The number of rows that satisfy every predicate. */
  ghost function Hits(preds: seq<Predicate>, types: seq<FieldType>, rows: seq<ValueRow>): nat
    requires Wide(rows, types)
  {
    if rows == [] then 0
    else
      Hits(preds, types, rows[..|rows| - 1]) + if Qualifies(preds, types, rows[|rows| - 1]) then 1 else 0
  }

  function Least(xs: seq<real>): (m: Option<real>)
    ensures m.None? <==> xs == []
    ensures m.Some? ==> m.value in xs && forall x :: x in xs ==> m.value <= x
  {
    if xs == [] then None
    else
      var x := xs[|xs| - 1];
      assert forall y :: y in xs ==> y in xs[..|xs| - 1] || y == x;
      match Least(xs[..|xs| - 1])
      case None => Some(x)
      case Some(m) => Some(if x < m then x else m)
  }

  function Greatest(xs: seq<real>): (m: Option<real>)
    ensures m.None? <==> xs == []
    ensures m.Some? ==> m.value in xs && forall x :: x in xs ==> x <= m.value
  {
    if xs == [] then None
    else
      var x := xs[|xs| - 1];
      assert forall y :: y in xs ==> y in xs[..|xs| - 1] || y == x;
      match Greatest(xs[..|xs| - 1])
      case None => Some(x)
      case Some(m) => Some(if x > m then x else m)
  }

  /** The answer of the Python loops. */
  ghost function Reference(preds: seq<Predicate>, types: seq<FieldType>, rows: seq<ValueRow>, q: Request): Answer
    requires Wide(rows, types) && RequestFits(q, types)
  {
    Answer(
      if q.sum.Some? then Some(Sum(Selected(preds, types, q.sum.value, rows))) else None,
      if q.min.Some? then Some(Least(Selected(preds, types, q.min.value, rows))) else None,
      if q.max.Some? then Some(Greatest(Selected(preds, types, q.max.value, rows))) else None,
      if !q.count then None
      else if q.min.Some? then Some(|Selected(preds, types, q.min.value, rows)|)
      else if q.max.Some? then Some(|Selected(preds, types, q.max.value, rows)|)
      else Some(Hits(preds, types, rows)))
  }

  // ---------- The Python loops ----------

  /** _apply_predicates. */
  method ApplyPredicates(preds: seq<Predicate>, types: seq<FieldType>, rows: seq<ValueRow>) returns (mask: seq<bool>)
    requires Wide(rows, types) && InRange(preds, |types|)
    ensures |mask| == |rows|
    ensures forall i :: 0 <= i < |rows| ==> (mask[i] <==> Qualifies(preds, types, rows[i]))
  {
    hide Satisfies;
    mask := seq(|rows|, i => true);
    for k := 0 to |preds|
      invariant |mask| == |rows|
      invariant forall i :: 0 <= i < |rows| ==> (mask[i] <==> Qualifies(preds[..k], types, rows[i]))
    {
      var p := preds[k];
      assert preds[..k + 1] == preds[..k] + [p];
      for i := 0 to |rows|
        invariant |mask| == |rows|
        invariant forall j :: 0 <= j < i ==> (mask[j] <==> Qualifies(preds[..k + 1], types, rows[j]))
        invariant forall j :: i <= j < |rows| ==> (mask[j] <==> Qualifies(preds[..k], types, rows[j]))
      {
        if mask[i] {
          mask := mask[i := Satisfies(rows[i][p.field], types[p.field], p.op, p.value)];
        }
      }
    }
    assert preds[..|preds|] == preds;
  }

  /** The numbers that one of the loops of _aggregate runs over, and their least and greatest. */
  method PythonFold(preds: seq<Predicate>, types: seq<FieldType>, rows: seq<ValueRow>, mask: seq<bool>, field: nat)
      returns (total: real, least: Option<real>, greatest: Option<real>, count: nat)
    requires Wide(rows, types) && field < |types| && IsNumeric(types[field]) && |mask| == |rows|
    requires forall i :: 0 <= i < |rows| ==> (mask[i] <==> Qualifies(preds, types, rows[i]))
    ensures var xs := Selected(preds, types, field, rows);
            total == Sum(xs) && least == Least(xs) && greatest == Greatest(xs) && count == |xs|
  {
    hide Qualifies, NumberOf, Selected, Sum, Least, Greatest;
    total, least, greatest, count := 0.0, None, None, 0;
    NothingFolded(preds, types, field);
    for i := 0 to |rows|
      invariant var xs := Selected(preds, types, field, rows[..i]);
                total == Sum(xs) && least == Least(xs) && greatest == Greatest(xs) && count == |xs|
    {
      SelectedStep(preds, types, field, rows, i);
      if mask[i] && rows[i][field].Fixed? {
        var x := NumberOf(types[field], rows[i][field].raw);
        FoldedStep(Selected(preds, types, field, rows[..i]), x);
        total := total + x;
        if least.None? || x < least.value {
          least := Some(x);
        }
        if greatest.None? || x > greatest.value {
          greatest := Some(x);
        }
        count := count + 1;
      }
    }
    assert rows[..|rows|] == rows;
  }

  lemma NothingFolded(preds: seq<Predicate>, types: seq<FieldType>, field: nat)
    requires field < |types|
    ensures Selected(preds, types, field, []) == [] && Sum([]) == 0.0 && Least([]) == None && Greatest([]) == None
  {
  }

  lemma SelectedStep(preds: seq<Predicate>, types: seq<FieldType>, field: nat, rows: seq<ValueRow>, i: nat)
    requires Wide(rows, types) && field < |types| && i < |rows|
    ensures Wide(rows[..i], types) && Wide(rows[..i + 1], types)
    ensures Selected(preds, types, field, rows[..i + 1]) ==
            if Qualifies(preds, types, rows[i]) && rows[i][field].Fixed? then
              Selected(preds, types, field, rows[..i]) + [NumberOf(types[field], rows[i][field].raw)]
            else Selected(preds, types, field, rows[..i])
  {
    hide Qualifies, NumberOf;
    assert rows[..i + 1][..i] == rows[..i];
  }

  lemma FoldedStep(xs: seq<real>, x: real)
    ensures Sum(xs + [x]) == Sum(xs) + x
    ensures Least(xs + [x]) == Some(if Least(xs).None? || x < Least(xs).value then x else Least(xs).value)
    ensures Greatest(xs + [x]) == Some(if Greatest(xs).None? || x > Greatest(xs).value then x else Greatest(xs).value)
  {
    assert (xs + [x])[..|xs|] == xs;
  }

  method CountMask(preds: seq<Predicate>, types: seq<FieldType>, ghost rows: seq<ValueRow>, mask: seq<bool>) returns (n: nat)
    requires Wide(rows, types) && |mask| == |rows|
    requires forall i :: 0 <= i < |rows| ==> (mask[i] <==> Qualifies(preds, types, rows[i]))
    ensures n == Hits(preds, types, rows)
  {
    hide Qualifies;
    n := 0;
    for i := 0 to |mask|
      invariant n == Hits(preds, types, rows[..i])
    {
      assert rows[..i + 1][..i] == rows[..i];
      if mask[i] {
        n := n + 1;
      }
    }
    assert rows[..|rows|] == rows;
  }

  /** _aggregate. */
  method PythonAggregate(preds: seq<Predicate>, types: seq<FieldType>, rows: seq<ValueRow>, q: Request)
      returns (a: Answer)
    requires Wide(rows, types) && InRange(preds, |types|) && RequestFits(q, types)
    ensures a == Reference(preds, types, rows, q)
  {
    hide Selected, Hits, Qualifies, Sum, Least, Greatest;
    var mask := ApplyPredicates(preds, types, rows);
    a := Answer(None, None, None, None);
    if q.sum.Some? {
      var total, _, _, _ := PythonFold(preds, types, rows, mask, q.sum.value);
      a := a.(sum := Some(total));
    }
    if q.min.Some? {
      var _, least, _, n := PythonFold(preds, types, rows, mask, q.min.value);
      a := a.(min := Some(least));
      if q.count {
        a := a.(count := Some(n));
      }
    }
    if q.max.Some? {
      var _, _, greatest, n := PythonFold(preds, types, rows, mask, q.max.value);
      a := a.(max := Some(greatest));
      if q.count && q.min.None? {
        a := a.(count := Some(n));
      }
    }
    if q.count && q.min.None? && q.max.None? {
      var n := CountMask(preds, types, rows, mask);
      a := a.(count := Some(n));
    }
  }

  /** Where a scan that counts `skipped` and `added` rows stands after the matching rows `found`. */
  ghost predicate ScanAt(found: seq<ValueRow>, offset: nat, limit: nat, rows: seq<ValueRow>, skipped: nat, added: nat) {
    && rows == Take(Drop(found, offset), limit)
    && skipped == (if |found| < offset then |found| else offset)
    && added == |rows|
  }

  /** One more matching row, before the limit is reached. */
  method TakeRow(ghost found: seq<ValueRow>, offset: nat, limit: nat, rows: seq<ValueRow>, skipped: nat, added: nat, row: ValueRow)
      returns (rows': seq<ValueRow>, skipped': nat, added': nat, stop: bool)
    requires ScanAt(found, offset, limit, rows, skipped, added) && (limit == 0 || added < limit)
    ensures ScanAt(found + [row], offset, limit, rows', skipped', added')
    ensures stop <==> limit > 0 && added' >= limit
  {
    if skipped < offset {
      return rows, skipped + 1, added, false;
    }
    assert Drop(found + [row], offset) == Drop(found, offset) + [row];
    rows', skipped', added' := rows + [row], skipped, added + 1;
    stop := limit > 0 && added' >= limit;
  }

  /** Matching rows beyond the limit change nothing. */
  lemma LimitReached(found: seq<ValueRow>, more: seq<ValueRow>, offset: nat, limit: nat)
    requires limit > 0 && |Take(Drop(found, offset), limit)| >= limit
    ensures Take(Drop(found + more, offset), limit) == Take(Drop(found, offset), limit)
  {
    assert Drop(found + more, offset) == Drop(found, offset) + more;
  }

  lemma FoundStep(preds: seq<Predicate>, outs: seq<Output>, types: seq<FieldType>, rows: seq<ValueRow>, i: nat)
    requires Fits(outs, types) && Wide(rows, types) && i < |rows|
    ensures Wide(rows[..i], types) && Wide(rows[..i + 1], types)
    ensures Found(preds, outs, types, rows[..i + 1]) ==
            Found(preds, outs, types, rows[..i]) +
            if Qualifies(preds, types, rows[i]) then [Project(outs, types, rows[i])] else []
  {
    assert rows[..i + 1][..i] == rows[..i];
  }

  lemma FoundSplit(preds: seq<Predicate>, outs: seq<Output>, types: seq<FieldType>, rows: seq<ValueRow>, i: nat)
    requires Fits(outs, types) && Wide(rows, types) && i <= |rows|
    ensures Wide(rows[..i], types) && Wide(rows[i..], types)
    ensures Found(preds, outs, types, rows) == Found(preds, outs, types, rows[..i]) + Found(preds, outs, types, rows[i..])
  {
    assert rows == rows[..i] + rows[i..];
    FoundConcat(preds, outs, types, rows[..i], rows[i..]);
  }

  /** _scan_python. */
  method PythonScan(preds: seq<Predicate>, outs: seq<Output>, types: seq<FieldType>, rows: seq<ValueRow>,
                    limit: nat, offset: nat)
      returns (result: seq<ValueRow>)
    requires Wide(rows, types) && InRange(preds, |types|) && Fits(outs, types)
    ensures result == Take(Drop(Found(preds, outs, types, rows), offset), limit)
  {
    hide Qualifies, Found, Take, Drop, ScanAt, Project;
    var mask := ApplyPredicates(preds, types, rows);
    result := [];
    var skipped: nat, added: nat := 0, 0;
    ScanStarts(preds, outs, types, offset, limit);
    for i := 0 to |rows|
      invariant ScanAt(Found(preds, outs, types, rows[..i]), offset, limit, result, skipped, added)
      invariant limit == 0 || added < limit
    {
      FoundStep(preds, outs, types, rows, i);
      ghost var found := Found(preds, outs, types, rows[..i]);
      assert found + [] == found;
      if mask[i] {
        var stop;
        result, skipped, added, stop := TakeRow(found, offset, limit, result, skipped, added, Project(outs, types, rows[i]));
        if stop {
          RestNotNeeded(preds, outs, types, rows, i + 1, offset, limit, result, skipped, added);
          return;
        }
      }
    }
    assert rows[..|rows|] == rows;
    AtEnd(Found(preds, outs, types, rows), offset, limit, result, skipped, added);
  }

  lemma ScanStarts(preds: seq<Predicate>, outs: seq<Output>, types: seq<FieldType>, offset: nat, limit: nat)
    requires Fits(outs, types)
    ensures ScanAt(Found(preds, outs, types, []), offset, limit, [], 0, 0)
  {
  }

  lemma AtEnd(found: seq<ValueRow>, offset: nat, limit: nat, rows: seq<ValueRow>, skipped: nat, added: nat)
    requires ScanAt(found, offset, limit, rows, skipped, added)
    ensures rows == Take(Drop(found, offset), limit) && added == |rows|
  {
  }

  lemma RestNotNeeded(preds: seq<Predicate>, outs: seq<Output>, types: seq<FieldType>, rows: seq<ValueRow>, i: nat,
                      offset: nat, limit: nat, result: seq<ValueRow>, skipped: nat, added: nat)
    requires Fits(outs, types) && Wide(rows, types) && i <= |rows|
    requires ScanAt(Found(preds, outs, types, rows[..i]), offset, limit, result, skipped, added)
    requires limit > 0 && added >= limit
    ensures result == Take(Drop(Found(preds, outs, types, rows), offset), limit)
  {
    hide Found, Take, Drop;
    FoundSplit(preds, outs, types, rows, i);
    LimitReached(Found(preds, outs, types, rows[..i]), Found(preds, outs, types, rows[i..]), offset, limit);
  }
}
