/**
 Documents as they are in memory: lists and dictionaries that are changed in
 place. A document is a tree; no part of it is shared.
 */
module DocumentTree {
  import opened Wrappers
  import opened PathLens

  datatype Shape = Leaf(text: string) | List(items: seq<Node>) | Dict(fields: map<string, Node>)

  class Node {
    var shape: Shape
    /** The document that the tree stands for, and its nodes. */
    ghost var Value: Json
    ghost var Repr: set<Node>

    ghost predicate Valid()
      reads this, Repr
      decreases Repr
    {
      && this in Repr
      && match shape
         case Leaf(text) => Value == Scalar(text)
         case List(items) => ValidItems(items)
         case Dict(fields) => ValidFields(fields)
    }

    ghost predicate Owns(child: Node)
      reads this, Repr
    {
      child in Repr && child.Repr <= Repr && this !in child.Repr
    }

    ghost predicate ValidItems(items: seq<Node>)
      requires this in Repr
      reads this, Repr
      decreases Repr, 0
    {
      && (forall i :: 0 <= i < |items| ==> Owns(items[i]) && items[i].Valid())
      && (forall i, j :: 0 <= i < j < |items| ==> items[i].Repr !! items[j].Repr)
      && Value.Arr? && |Value.items| == |items|
      && (forall i :: 0 <= i < |items| ==> Value.items[i] == items[i].Value)
    }

    ghost predicate ValidFields(fields: map<string, Node>)
      requires this in Repr
      reads this, Repr
      decreases Repr, 0
    {
      && (forall k :: k in fields ==> Owns(fields[k]) && fields[k].Valid())
      && (forall k, l :: k in fields && l in fields && k != l ==> fields[k].Repr !! fields[l].Repr)
      && Value.Obj? && Value.fields.Keys == fields.Keys
      && (forall k :: k in fields ==> Value.fields[k] == fields[k].Value)
    }

    constructor Empty()
      ensures Valid() && Value == EMPTY_DOCUMENT && fresh(Repr)
    {
      shape, Value, Repr := Dict(map[]), EMPTY_DOCUMENT, {this};
    }

    // ---------- Lists ----------

    /** Everything of the list but the item at `index` is as it must be, and apart from `child`. */
    ghost predicate OtherItems(items: seq<Node>, index: nat, child: Node)
      requires this in Repr
      reads this, Repr, child
    {
      && this !in child.Repr
      && (forall i :: 0 <= i < |items| && i != index ==> Owns(items[i]) && items[i].Valid() && items[i].Repr !! child.Repr)
      && (forall i, j :: 0 <= i < j < |items| && i != index && j != index ==> items[i].Repr !! items[j].Repr)
      && Value.Arr? && |Value.items| == |items|
      && (forall i :: 0 <= i < |items| && i != index ==> Value.items[i] == items[i].Value)
    }

    /** `current[index] = value`, for an index that is there or one behind the last. */
    method PutItem(items: seq<Node>, index: nat, child: Node)
      requires this in Repr && shape == List(items) && index <= |items|
      requires OtherItems(items, index, child) && child.Valid()
      modifies this
      ensures Valid() && Repr == old(Repr) + child.Repr && shape.List?
      ensures shape.items == if index < |items| then items[index := child] else items + [child]
      ensures Value == Arr(if index < |items| then old(Value).items[index := child.Value] else old(Value).items + [child.Value])
    {
      hide Node.ValidFields;
      var more := if index < |items| then items[index := child] else items + [child];
      ghost var values := if index < |items| then Value.items[index := child.Value] else Value.items + [child.Value];
      shape := List(more);
      Value := Arr(values);
      Repr := Repr + child.Repr;
      forall i | 0 <= i < |more|
        ensures Owns(more[i]) && more[i].Valid() && values[i] == more[i].Value
      {
        assert more[i] == if i == index then child else items[i];
      }
      forall i, j | 0 <= i < j < |more|
        ensures more[i].Repr !! more[j].Repr
      {
        ItemApart(items, index, child, i, j);
      }
      assert ValidItems(more);
    }

    /** Empty documents are appended until the list has the index `n`. */
    method Extend(n: nat)
      requires Valid() && shape.List?
      modifies this
      ensures Valid() && shape.List? && |shape.items| > n
      ensures old(Value).Arr? && Value == Arr(Padded(old(Value).items, n))
      ensures fresh(Repr - old(Repr)) && old(Repr) <= Repr
    {
      hide Padded;
      ghost var first := Value.items;
      EnoughPadded(first, n);
      while |shape.items| <= n
        invariant Valid() && shape.List? && Value.Arr? && |shape.items| == |Value.items|
        invariant fresh(Repr - old(Repr)) && old(Repr) <= Repr
        invariant Padded(Value.items, n) == Padded(first, n)
        decreases n + 1 - |shape.items|
      {
        var empty := new Node.Empty();
        OnePadded(Value.items, n);
        PutItem(shape.items, |shape.items|, empty);
      }
      EnoughPadded(Value.items, n);
    }

    // ---------- Dictionaries ----------

    ghost predicate OtherFields(fields: map<string, Node>, part: string, child: Node)
      requires this in Repr
      reads this, Repr, child
    {
      && this !in child.Repr
      && (forall k :: k in fields && k != part ==> Owns(fields[k]) && fields[k].Valid() && fields[k].Repr !! child.Repr)
      && (forall k, l :: k in fields && l in fields && k != l && k != part && l != part ==>
            fields[k].Repr !! fields[l].Repr)
      && Value.Obj? && Value.fields.Keys == fields.Keys
      && (forall k :: k in fields && k != part ==> Value.fields[k] == fields[k].Value)
    }

    /** `current[part] = value`. */
    method PutField(fields: map<string, Node>, part: string, child: Node)
      requires this in Repr && shape == Dict(fields) && OtherFields(fields, part, child) && child.Valid()
      modifies this
      ensures Valid() && Repr == old(Repr) + child.Repr && shape == Dict(fields[part := child])
      ensures Value == Obj(old(Value).fields[part := child.Value])
    {
      hide Node.ValidItems;
      ghost var values := Value.fields[part := child.Value];
      var more := fields[part := child];
      shape := Dict(more);
      Value := Obj(values);
      Repr := Repr + child.Repr;
      forall k | k in more
        ensures Owns(more[k]) && more[k].Valid() && values[k] == more[k].Value
      {
        assert more[k] == if k == part then child else fields[k];
      }
      forall k, l | k in more && l in more && k != l
        ensures more[k].Repr !! more[l].Repr
      {
        FieldApart(fields, part, child, k, l);
      }
      assert ValidFields(more);
    }

    // ---------- Setting a path ----------

    /** _set_path on the document in place; a failure changes nothing. */
    method SetPath(p: Path, v: Node) returns (ok: bool)
      requires Valid() && v.Valid() && v.Repr !! Repr && p != []
      modifies Repr
      decreases |p|, 2
      ensures ok <==> PathLens.SetPath(old(Value), p, v.Value).Some?
      ensures Valid() && fresh(Repr - old(Repr) - v.Repr)
      ensures Value == if ok then PathLens.SetPath(old(Value), p, v.Value).value else old(Value)
    {
      match shape {
        case Leaf(_) =>
          return false;
        case List(_) =>
          if !IsDigits(p[0]) {
            return false;
          }
          ok := SetInList(p, v);
        case Dict(_) =>
          ok := SetInDict(p, v);
      }
    }

    method SetInList(p: Path, v: Node) returns (ok: bool)
      requires Valid() && v.Valid() && v.Repr !! Repr && p != [] && shape.List? && IsDigits(p[0])
      modifies Repr
      decreases |p|, 1
      ensures ok <==> PathLens.SetPath(old(Value), p, v.Value).Some?
      ensures Valid() && fresh(Repr - old(Repr) - v.Repr)
      ensures Value == if ok then PathLens.SetPath(old(Value), p, v.Value).value else old(Value)
    {
      hide PathLens.SetPath, Padded, Node.ValidItems, Node.ValidFields;
      var n := Number(p[0]);
      ItemsMatch(this);
      ListStep(Value, p, v.Value);
      Extend(n);
      ItemsMatch(this);
      if |p| == 1 {
        ItemsApart(this, n, v);
        PutItem(shape.items, n, v);
        return true;
      }
      ok := SetInItem(n, p[1..], v);
    }

    /** The loop goes on in the item `n`; a value that is no container makes room for a document. */
    method SetInItem(n: nat, p: Path, v: Node) returns (ok: bool)
      requires Valid() && v.Valid() && v.Repr !! Repr && p != [] && shape.List? && n < |shape.items|
      modifies Repr
      decreases |p|, 4
      ensures old(Value).Arr? && n < |old(Value).items| && Valid() && fresh(Repr - old(Repr) - v.Repr)
      ensures ok <==> PathLens.SetPath(Room(old(Value).items[n]), p, v.Value).Some?
      ensures var below := Room(old(Value).items[n]);
              Value == Arr(old(Value).items[n := if ok then PathLens.SetPath(below, p, v.Value).value else below])
    {
      hide PathLens.SetPath;
      var child := shape.items[n];
      ShapeMatches(child);
      if child.shape.Leaf? {
        child := new Node.Empty();
      }
      ok := DescendItem(shape.items, n, child, p, v);
      PutItem(shape.items, n, child);
    }

    /** The loop goes on in `child`, which will be the item at `index`. */
    method DescendItem(items: seq<Node>, index: nat, child: Node, p: Path, v: Node) returns (ok: bool)
      requires this in Repr && OtherItems(items, index, child) && child.Valid() && v.Valid() && p != []
      requires v.Repr !! Repr && v.Repr !! child.Repr
      modifies child.Repr
      decreases |p|, 3
      ensures ok <==> PathLens.SetPath(old(child.Value), p, v.Value).Some?
      ensures child.Valid() && fresh(child.Repr - old(child.Repr) - v.Repr) && OtherItems(items, index, child)
      ensures child.Value == if ok then PathLens.SetPath(old(child.Value), p, v.Value).value else old(child.Value)
    {
      hide PathLens.SetPath;
      ok := child.SetPath(p, v);
    }

    method SetInDict(p: Path, v: Node) returns (ok: bool)
      requires Valid() && v.Valid() && v.Repr !! Repr && p != [] && shape.Dict?
      modifies Repr
      decreases |p|, 1
      ensures ok <==> PathLens.SetPath(old(Value), p, v.Value).Some?
      ensures Valid() && fresh(Repr - old(Repr) - v.Repr)
      ensures Value == if ok then PathLens.SetPath(old(Value), p, v.Value).value else old(Value)
    {
      hide PathLens.SetPath;
      DictStep(Value, p, v.Value);
      if |p| == 1 {
        PutField(shape.fields, p[0], v);
        return true;
      }
      var child: Node;
      if p[0] in shape.fields {
        child := shape.fields[p[0]];
        ShapeMatches(child);
        if child.shape.Leaf? {
          child := new Node.Empty();
        }
      } else {
        child := new Node.Empty();
      }
      ok := DescendField(p[0], child, p[1..], v);
    }

    /** The loop goes on in `child`, and `child` is the field `part`. */
    method DescendField(part: string, child: Node, p: Path, v: Node) returns (ok: bool)
      requires this in Repr && shape.Dict? && OtherFields(shape.fields, part, child) && child.Valid() && v.Valid() && p != []
      requires v.Repr !! Repr && v.Repr !! child.Repr
      modifies this, child.Repr
      decreases |p|, 4
      ensures ok <==> PathLens.SetPath(old(child.Value), p, v.Value).Some?
      ensures Valid() && fresh(Repr - old(Repr) - old(child.Repr) - v.Repr)
      ensures Value == Obj(old(Value.fields)[part := if ok then PathLens.SetPath(old(child.Value), p, v.Value).value else old(child.Value)])
    {
      hide PathLens.SetPath;
      ok := SetApart(part, child, p, v);
      PutField(shape.fields, part, child);
    }

    method SetApart(part: string, child: Node, p: Path, v: Node) returns (ok: bool)
      requires this in Repr && shape.Dict? && OtherFields(shape.fields, part, child) && child.Valid() && v.Valid() && p != []
      requires v.Repr !! Repr && v.Repr !! child.Repr
      modifies child.Repr
      decreases |p|, 3
      ensures ok <==> PathLens.SetPath(old(child.Value), p, v.Value).Some?
      ensures child.Valid() && fresh(child.Repr - old(child.Repr) - v.Repr) && OtherFields(shape.fields, part, child)
      ensures child.Value == if ok then PathLens.SetPath(old(child.Value), p, v.Value).value else old(child.Value)
    {
      hide PathLens.SetPath;
      ok := child.SetPath(p, v);
    }

    // ---------- Deleting a path ----------

    /** `current.pop(index)` on a list. */
    method RemoveItem(items: seq<Node>, index: nat)
      requires Valid() && shape == List(items) && index < |items|
      modifies this
      ensures old(Value).Arr? && |old(Value).items| == |items|
      ensures Valid() && Repr == old(Repr) && Value == Arr(Without(old(Value).items, index))
    {
      hide Node.ValidFields;
      shape := List(items[..index] + items[index + 1..]);
      Value := Arr(Without(Value.items, index));
    }

    /** `current.pop(part)` on a dictionary. */
    method RemoveField(fields: map<string, Node>, part: string)
      requires Valid() && shape == Dict(fields) && part in fields
      modifies this
      ensures old(Value).Obj?
      ensures Valid() && Repr == old(Repr) && Value == Obj(old(Value).fields - {part})
    {
      hide Node.ValidItems;
      shape := Dict(fields - {part});
      Value := Obj(Value.fields - {part});
    }

    /** _del_path on the document in place. */
    method DelPath(p: Path)
      requires Valid() && p != []
      modifies Repr
      decreases |p|, 1
      ensures Valid() && Repr == old(Repr) && Value == PathLens.DelPath(old(Value), p)
    {
      hide PathLens.DelPath;
      DeleteInto(Value, p);
      match shape {
        case Leaf(_) =>
        case List(items) =>
          if !IsDigits(p[0]) || Number(p[0]) >= |items| {
            return;
          }
          var n := Number(p[0]);
          if |p| == 1 {
            RemoveItem(items, n);
          } else {
            DeleteInItem(items, n, p[1..]);
            PutItem(items, n, items[n]);
          }
        case Dict(fields) =>
          if p[0] !in fields {
            return;
          }
          if |p| == 1 {
            RemoveField(fields, p[0]);
          } else {
            DeleteInField(fields, p[0], p[1..]);
            PutField(fields, p[0], fields[p[0]]);
          }
      }
    }

    /** The loop goes on in an item: nothing else of the list changes. */
    method DeleteInItem(items: seq<Node>, n: nat, p: Path)
      requires this in Repr && n < |items| && OtherItems(items, n, items[n]) && items[n].Valid() && p != []
      modifies items[n].Repr
      decreases |p|, 2
      ensures items[n].Valid() && items[n].Repr == old(items[n].Repr) && OtherItems(items, n, items[n])
      ensures items[n].Value == PathLens.DelPath(old(items[n].Value), p)
    {
      hide PathLens.DelPath;
      items[n].DelPath(p);
    }

    /** The loop goes on in a field: nothing else of the dictionary changes. */
    method DeleteInField(fields: map<string, Node>, part: string, p: Path)
      requires this in Repr && part in fields && OtherFields(fields, part, fields[part]) && fields[part].Valid() && p != []
      modifies fields[part].Repr
      decreases |p|, 2
      ensures fields[part].Valid() && fields[part].Repr == old(fields[part].Repr) && OtherFields(fields, part, fields[part])
      ensures fields[part].Value == PathLens.DelPath(old(fields[part].Value), p)
    {
      hide PathLens.DelPath;
      fields[part].DelPath(p);
    }
  }

  /** Deleting, in terms of the child that the first part names. */
  lemma DeleteInto(j: Json, p: Path)
    requires p != []
    ensures Child(j, p[0]).None? ==> PathLens.DelPath(j, p) == j
    ensures Child(j, p[0]).Some? ==>
              var child := Child(j, p[0]).value;
              PathLens.DelPath(j, p) ==
                if j.Arr? then
                  Arr(if |p| == 1 then Without(j.items, Number(p[0])) else j.items[Number(p[0]) := PathLens.DelPath(child, p[1..])])
                else Obj(if |p| == 1 then j.fields - {p[0]} else j.fields[p[0] := PathLens.DelPath(child, p[1..])])
  {
  }

  /** The shape of a node shows what kind of value it stands for. */
  lemma ShapeMatches(node: Node)
    requires node.Valid()
    ensures node.shape.Leaf? <==> !IsContainer(node.Value)
  {
  }

  lemma ItemApart(items: seq<Node>, index: nat, child: Node, i: nat, j: nat)
    requires forall m :: 0 <= m < |items| && m != index ==> items[m].Repr !! child.Repr
    requires forall m, n :: 0 <= m < n < |items| && m != index && n != index ==> items[m].Repr !! items[n].Repr
    requires index <= |items| && i < j < (if index < |items| then |items| else |items| + 1)
    ensures var more := if index < |items| then items[index := child] else items + [child];
            more[i].Repr !! more[j].Repr
  {
  }

  lemma FieldApart(fields: map<string, Node>, part: string, child: Node, k: string, l: string)
    requires forall m :: m in fields && m != part ==> fields[m].Repr !! child.Repr
    requires forall m, n :: m in fields && n in fields && m != n && m != part && n != part ==> fields[m].Repr !! fields[n].Repr
    requires k in fields[part := child] && l in fields[part := child] && k != l
    ensures fields[part := child][k].Repr !! fields[part := child][l].Repr
  {
  }

  lemma ItemsMatch(node: Node)
    requires node.Valid() && node.shape.List?
    ensures node.Value.Arr? && |node.Value.items| == |node.shape.items|
  {
  }

  /** A tree apart from a list may become one of its items. */
  lemma ItemsApart(node: Node, n: nat, v: Node)
    requires node.Valid() && node.shape.List? && v.Valid() && v.Repr !! node.Repr && n < |node.shape.items|
    ensures node.OtherItems(node.shape.items, n, v)
  {
  }

  lemma EnoughPadded(items: seq<Json>, n: nat)
    ensures |items| > n ==> Padded(items, n) == items
  {
  }

  lemma OnePadded(items: seq<Json>, n: nat)
    requires |items| <= n
    ensures Padded(items + [EMPTY_DOCUMENT], n) == Padded(items, n)
  {
  }

  lemma {:induction false} EmptyNeverFails(p: Path, v: Json)
    requires p != []
    ensures PathLens.SetPath(EMPTY_DOCUMENT, p, v).Some?
    decreases |p|
  {
    if |p| > 1 {
      EmptyNeverFails(p[1..], v);
    }
  }

  /** Setting in a list, in terms of the item that the first part names. */
  lemma ListStep(j: Json, p: Path, v: Json)
    requires j.Arr? && p != [] && IsDigits(p[0])
    ensures var n := Number(p[0]);
            var items := Padded(j.items, n);
            if |p| == 1 then PathLens.SetPath(j, p, v) == Some(Arr(items[n := v]))
            else
              var r := PathLens.SetPath(Room(items[n]), p[1..], v);
              && PathLens.SetPath(j, p, v) == (if r.Some? then Some(Arr(items[n := r.value])) else None)
              && (r.None? ==> items == j.items && Room(items[n]) == items[n] && items[n := items[n]] == items)
  {
    if |p| > 1 {
      EmptyNeverFails(p[1..], v);
    }
  }

  /** Setting in a dictionary, in terms of the field that the first part names. */
  lemma DictStep(j: Json, p: Path, v: Json)
    requires j.Obj? && p != []
    ensures if |p| == 1 then PathLens.SetPath(j, p, v) == Some(Obj(j.fields[p[0] := v]))
            else
              var below := if p[0] in j.fields then Room(j.fields[p[0]]) else EMPTY_DOCUMENT;
              var r := PathLens.SetPath(below, p[1..], v);
              && PathLens.SetPath(j, p, v) == (if r.Some? then Some(Obj(j.fields[p[0] := r.value])) else None)
              && (r.None? ==> p[0] in j.fields && below == j.fields[p[0]] && j.fields[p[0] := below] == j.fields)
  {
    if |p| > 1 {
      EmptyNeverFails(p[1..], v);
    }
  }
}
