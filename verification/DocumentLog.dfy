/** A document collection kept as an append-only log of versions and tombstones. */
module DocumentLog {
  import opened Wrappers
  import opened PathLens
  import opened ClockMix
  import Bitmap
  import Table

  type Fields = map<string, Json>

  datatype Doc = Doc(id: int, fields: Fields)

  /** A row of the table behind the collection. */
  datatype LogRow = LogRow(doc: Doc, deleted: bool, version: int)

  // ---------- What a log means: a dictionary of documents ----------

  /** The documents by id; `order` lists every id at the place of its first row, also the deleted ones. */
  datatype Documents = Documents(order: seq<int>, live: map<int, Fields>)

  const NO_DOCUMENTS := Documents([], map[])

  function Listing(order: seq<int>, id: int): seq<int> { if id in order then order else order + [id] }

  function Put(d: Documents, doc: Doc): Documents {
    Documents(Listing(d.order, doc.id), d.live[doc.id := doc.fields])
  }

  function Remove(d: Documents, id: int): Documents { Documents(Listing(d.order, id), d.live - {id}) }

  function PutAll(d: Documents, docs: seq<Doc>): Documents {
    if docs == [] then d else Put(PutAll(d, docs[..|docs| - 1]), docs[|docs| - 1])
  }

  function RemoveAll(d: Documents, docs: seq<Doc>): Documents {
    if docs == [] then d else Remove(RemoveAll(d, docs[..|docs| - 1]), docs[|docs| - 1].id)
  }

  /** The log as operations on the dictionary, one for each row. */
  function Meaning(log: seq<LogRow>): Documents {
    if log == [] then NO_DOCUMENTS
    else
      var row, d := log[|log| - 1], Meaning(log[..|log| - 1]);
      if row.deleted then Remove(d, row.doc.id) else Put(d, row.doc)
  }

  /** The documents of the dictionary, in its order. */
  function Listed(order: seq<int>, live: map<int, Fields>): seq<Doc> {
    if order == [] then []
    else
      var id := order[|order| - 1];
      Listed(order[..|order| - 1], live) + if id in live then [Doc(id, live[id])] else []
  }

  function AllDocs(d: Documents): seq<Doc> { Listed(d.order, d.live) }

  predicate DistinctIds(order: seq<int>) { forall i, j :: 0 <= i < j < |order| ==> order[i] != order[j] }

  /** Each id has one place, and every live id has one. */
  predicate Orderly(d: Documents) { DistinctIds(d.order) && forall id :: id in d.live ==> id in d.order }

  lemma {:induction false} MeaningOrderly(log: seq<LogRow>)
    ensures Orderly(Meaning(log))
  {
    if log != [] {
      MeaningOrderly(log[..|log| - 1]);
    }
  }

  /** The listing shows exactly the live documents, each once. */
  lemma {:induction false} ListedExactly(order: seq<int>, live: map<int, Fields>)
    requires DistinctIds(order)
    ensures forall doc :: doc in Listed(order, live) <==> doc.id in order && doc.id in live && doc.fields == live[doc.id]
    ensures forall i, j :: 0 <= i < j < |Listed(order, live)| ==> Listed(order, live)[i].id != Listed(order, live)[j].id
  {
    if order != [] {
      ListedExactly(order[..|order| - 1], live);
      var docs := Listed(order[..|order| - 1], live);
      assert forall i :: 0 <= i < |docs| ==> docs[i] in docs;
    }
  }

  /** A row of `a` comes before every row of `b`, of which there is one. */
  predicate RowsBefore(log: seq<LogRow>, a: int, b: int) {
    && (exists j :: 0 <= j < |log| && log[j].doc.id == b)
    && exists i :: 0 <= i < |log| && log[i].doc.id == a && forall j :: 0 <= j <= i ==> log[j].doc.id != b
  }

  predicate Precedes(order: seq<int>, a: int, b: int) {
    exists i, j :: 0 <= i < j < |order| && order[i] == a && order[j] == b
  }

  lemma {:induction false} OrderListsRows(log: seq<LogRow>, id: int)
    ensures id in Meaning(log).order <==> exists j :: 0 <= j < |log| && log[j].doc.id == id
  {
    if log != [] {
      var front := log[..|log| - 1];
      OrderListsRows(front, id);
      if j :| 0 <= j < |log| && log[j].doc.id == id {
        assert j < |front| ==> front[j] == log[j];
      }
    }
  }

  /** The order of the dictionary is that of the first rows. */
  lemma {:induction false} OrderIsOfFirstRows(log: seq<LogRow>, a: int, b: int)
    ensures Precedes(Meaning(log).order, a, b) <==> RowsBefore(log, a, b)
  {
    hide Precedes, Meaning, RowsBefore;
    if log == [] {
      NothingBefore(a, b);
    } else {
      var n := |log| - 1;
      var front, id := log[..n], log[n].doc.id;
      OrderIsOfFirstRows(front, a, b);
      OrderMore(front, log[n]);
      OrderListsRows(front, a);
      OrderListsRows(front, b);
      assert front + [log[n]] == log;
      RowsBeforeMore(front, log[n], a, b);
      if id !in Meaning(front).order {
        PrecedesExactly(Meaning(front).order, id, a, b);
      }
    }
  }

  lemma NothingBefore(a: int, b: int)
    ensures !Precedes(Meaning([]).order, a, b) && !RowsBefore([], a, b)
  {
  }

  lemma OrderMore(log: seq<LogRow>, row: LogRow)
    ensures var order := Meaning(log).order;
            Meaning(log + [row]).order == if row.doc.id in order then order else order + [row.doc.id]
  {
    assert (log + [row])[..|log|] == log;
  }

  lemma RowsBeforeMore(log: seq<LogRow>, row: LogRow, a: int, b: int)
    ensures RowsBefore(log + [row], a, b) <==>
            RowsBefore(log, a, b) ||
            (row.doc.id == b && (exists i :: 0 <= i < |log| && log[i].doc.id == a) &&
             forall i :: 0 <= i < |log| ==> log[i].doc.id != b)
  {
    var more := log + [row];
    assert forall i :: 0 <= i < |log| ==> more[i] == log[i];
    assert more[|log|] == row;
  }

  lemma PrecedesExactly(order: seq<int>, id: int, a: int, b: int)
    ensures Precedes(order + [id], a, b) <==> Precedes(order, a, b) || (a in order && b == id)
  {
    var more := order + [id];
    if i, j :| 0 <= i < j < |order| && order[i] == a && order[j] == b {
      assert more[i] == a && more[j] == b;
    }
    if a in order && b == id {
      var i :| 0 <= i < |order| && order[i] == a;
      assert more[i] == a && more[|order|] == b;
    }
  }

  // ---------- Reading the log ----------

  /** The row that a reader settles on: a later row replaces it only with a higher version. */
  function NewestAt(log: seq<LogRow>, id: int): (k: Option<nat>)
    ensures k.Some? ==> k.value < |log| && log[k.value].doc.id == id
  {
    if log == [] then None
    else
      var n := |log| - 1;
      var k := NewestAt(log[..n], id);
      if log[n].doc.id != id then k
      else if k.None? || log[n].version > log[k.value].version then Some(n)
      else k
  }

  function LastAt(log: seq<LogRow>, id: int): (k: Option<nat>)
    ensures k.Some? ==> k.value < |log| && log[k.value].doc.id == id
    ensures k.Some? ==> forall i :: k.value < i < |log| ==> log[i].doc.id != id
    ensures k.None? ==> forall i :: 0 <= i < |log| ==> log[i].doc.id != id
  {
    if log == [] then None
    else if log[|log| - 1].doc.id == id then Some(|log| - 1)
    else LastAt(log[..|log| - 1], id)
  }

  /** The last row of the id has a higher version than all its earlier rows. */
  predicate LastIsHighest(log: seq<LogRow>, id: int) {
    var k := LastAt(log, id);
    k.Some? ==> forall i :: 0 <= i < k.value && log[i].doc.id == id ==> log[i].version < log[k.value].version
  }

  lemma {:induction false} NewestIsHighest(log: seq<LogRow>, id: int)
    ensures NewestAt(log, id).None? <==> LastAt(log, id).None?
    ensures var k := NewestAt(log, id);
            k.Some? ==> forall i :: 0 <= i < |log| && log[i].doc.id == id ==>
                          log[i].version <= log[k.value].version && (i < k.value ==> log[i].version < log[k.value].version)
  {
    if log != [] {
      var n := |log| - 1;
      NewestIsHighest(log[..n], id);
    }
  }

  /** A reader takes the last row of an id exactly when that row's version is the highest. */
  lemma ReaderTakesLastExactly(log: seq<LogRow>, id: int)
    ensures NewestAt(log, id) == LastAt(log, id) <==> LastIsHighest(log, id)
  {
    NewestIsHighest(log, id);
  }

  /** The reader's dictionary after the rows `log`: for every id the row that it settles on. */
  ghost predicate Tracks(log: seq<LogRow>, latest: map<int, nat>, order: seq<int>) {
    && order == FirstSeen(log) && (forall id :: id in latest <==> id in order)
    && forall id: int :: NewestAt(log, id) == if id in latest then Some(latest[id]) else None
  }

  lemma TracksNothing()
    ensures Tracks([], map[], [])
  {
  }

  lemma TracksOrder(log: seq<LogRow>, latest: map<int, nat>, order: seq<int>)
    requires Tracks(log, latest, order)
    ensures order == FirstSeen(log)
  {
  }

  lemma TracksAt(log: seq<LogRow>, latest: map<int, nat>, order: seq<int>, i: nat)
    requires Tracks(log, latest, order) && i < |order|
    ensures order == FirstSeen(log)
    ensures order[i] in latest && latest[order[i]] < |log| && NewestAt(log, order[i]) == Some(latest[order[i]])
  {
    hide FirstSeen;
    assert order[i] in order;
    assert NewestAt(log, order[i]) == Some(latest[order[i]]);
  }

  /** One turn of the reader's loop. */
  lemma TracksMore(log: seq<LogRow>, latest: map<int, nat>, order: seq<int>, row: LogRow)
    requires Tracks(log, latest, order)
    ensures row.doc.id in latest ==> latest[row.doc.id] < |log|
    ensures if row.doc.id !in latest || row.version > log[latest[row.doc.id]].version then
              Tracks(log + [row], latest[row.doc.id := |log|], Listing(order, row.doc.id))
            else Tracks(log + [row], latest, order)
  {
    var id := row.doc.id;
    assert (log + [row])[..|log|] == log;
    assert NewestAt(log, id) == if id in latest then Some(latest[id]) else None;
  }

  /** The order in which ids first appear. */
  function FirstSeen(log: seq<LogRow>): seq<int> {
    if log == [] then [] else Listing(FirstSeen(log[..|log| - 1]), log[|log| - 1].doc.id)
  }

  /** The rows that a reader settles on, where they are no tombstones. */
  function Survivors(log: seq<LogRow>, order: seq<int>): seq<Doc> {
    if order == [] then []
    else
      var k := NewestAt(log, order[|order| - 1]);
      Survivors(log, order[..|order| - 1]) +
      if k.Some? && !log[k.value].deleted then [log[k.value].doc] else []
  }

  lemma {:induction false} MeaningByLastRow(log: seq<LogRow>, id: int)
    ensures Meaning(log).order == FirstSeen(log)
    ensures var k := LastAt(log, id);
            && (id in Meaning(log).live <==> k.Some? && !log[k.value].deleted)
            && (id in Meaning(log).live ==> Meaning(log).live[id] == log[k.value].doc.fields)
  {
    if log != [] {
      MeaningByLastRow(log[..|log| - 1], id);
    }
  }

  lemma {:induction false} SurvivorsAreListed(log: seq<LogRow>, order: seq<int>)
    requires forall id :: LastIsHighest(log, id)
    ensures Survivors(log, order) == Listed(order, Meaning(log).live)
  {
    hide Meaning, LastAt, NewestAt, LastIsHighest;
    if order != [] {
      SurvivorsAreListed(log, order[..|order| - 1]);
      var id := order[|order| - 1];
      ReaderTakesLastExactly(log, id);
      MeaningByLastRow(log, id);
      LastHasId(log, id);
    }
  }

  lemma LastHasId(log: seq<LogRow>, id: int)
    ensures LastAt(log, id).Some? ==> LastAt(log, id).value < |log| && log[LastAt(log, id).value].doc.id == id
  {
  }

  /** For each id the versions rise from row to row. */
  predicate Ascending(log: seq<LogRow>) {
    forall i, j :: 0 <= i < j < |log| && log[i].doc.id == log[j].doc.id ==> log[i].version < log[j].version
  }

  lemma AscendingIsReadable(log: seq<LogRow>, id: int)
    requires Ascending(log)
    ensures LastIsHighest(log, id)
  {
    LastHasId(log, id);
  }

  /** _next_version: a counter mixed into the clock with an exclusive or. */
  function NextVersion(time: nat, counter: nat): int { Mixed(time, counter) }

  /**
   The versions can fall although the clock does not: at every time that leaves
   2 when it is divided by 4, the first two are one more and two less than the
   clock. A reader then keeps the older document, and the update is lost.
   */
  lemma FallingVersionLosesUpdate(time: nat, id: int, before: Fields, after: Fields)
    requires time % 4 == 2
    ensures NextVersion(time, 1) == time % UINT64 + 1 && NextVersion(time, 2) == time % UINT64 - 2
    ensures var log := [LogRow(Doc(id, before), false, NextVersion(time, 1)),
                        LogRow(Doc(id, after), false, NextVersion(time, 2))];
            && Survivors(log, FirstSeen(log)) == [Doc(id, before)]
            && AllDocs(Meaning(log)) == [Doc(id, after)]
  {
    hide Survivors, FirstSeen, AllDocs, Meaning, Mixed;
    MixedFalls(time);
    TwoRows(Doc(id, before), Doc(id, after), NextVersion(time, 1), NextVersion(time, 2));
  }

  /** The first `n` versions rise from call to call. */
  ghost predicate RisingVersions(versionOf: nat -> int, n: nat) {
    forall i, j :: 1 <= i < j <= n ==> versionOf(i) < versionOf(j)
  }

  /**
   They do rise as long as there are fewer than 2^k calls and the clock moves on
   above bit k from call to call.
   */
  lemma VersionsRise(versionOf: nat -> int, clock: nat -> nat, n: nat, k: nat)
    requires forall i :: 1 <= i <= n ==> versionOf(i) == NextVersion(clock(i), i)
    requires k <= 64 && n < Bitmap.PowerOfTwo(k) && MovesOn(clock, n, k)
    requires forall i, j :: 1 <= i < j <= n ==> clock(i) != clock(j)
    ensures RisingVersions(versionOf, n)
  {
    hide Mixed, MovesOn;
    forall i, j | 1 <= i < j <= n
      ensures versionOf(i) < versionOf(j)
    {
      MixedAscends(clock, n, k, i, j);
    }
  }

  /** Such a clock exists: with readings 2^k apart the first n versions rise. */
  lemma SteadyVersionsRise(n: nat, k: nat)
    requires k <= 64 && n < Bitmap.PowerOfTwo(k) && n * Bitmap.PowerOfTwo(k) < UINT64
    ensures RisingVersions((i: nat) => NextVersion(SteadyClock(k)(i), i), n)
  {
    hide Mixed, MovesOn, RisingVersions;
    SteadyClockMovesOn(k, n);
    VersionsRise((i: nat) => NextVersion(SteadyClock(k)(i), i), SteadyClock(k), n, k);
  }

  lemma TwoRows(a: Doc, b: Doc, v: int, w: int)
    requires a.id == b.id && w < v
    ensures var log := [LogRow(a, false, v), LogRow(b, false, w)];
            Survivors(log, FirstSeen(log)) == [a] && AllDocs(Meaning(log)) == [b]
  {
    hide Meaning, NewestAt, FirstSeen;
    var log := [LogRow(a, false, v), LogRow(b, false, w)];
    TwoRowsRead(a, b, v, w);
    MeaningByLastRow(log, a.id);
    assert [a.id][..0] == [];
    assert Survivors(log, []) == [] && Listed([], Meaning(log).live) == [];
    assert LastAt(log, a.id) == Some(1);
  }

  lemma TwoRowsRead(a: Doc, b: Doc, v: int, w: int)
    requires a.id == b.id && w < v
    ensures var log := [LogRow(a, false, v), LogRow(b, false, w)];
            FirstSeen(log) == [a.id] && NewestAt(log, a.id) == Some(0)
  {
    var first, log := [LogRow(a, false, v)], [LogRow(a, false, v), LogRow(b, false, w)];
    assert log[..1] == first && first[..0] == [];
    assert FirstSeen(first) == [a.id] && NewestAt(first, a.id) == Some(0);
  }

  // ---------- The collection ----------

  /** A document to insert, with or without an id. */
  datatype NewDoc = NewDoc(id: Option<int>, fields: Fields)

  /** The documents with their ids: those without get the next numbers of the counter. */
  function Assigned(docs: seq<NewDoc>, nextId: int): seq<Doc> {
    if docs == [] then []
    else
      var id := if docs[0].id.Some? then docs[0].id.value else nextId;
      [Doc(id, docs[0].fields)] + Assigned(docs[1..], if docs[0].id.Some? then nextId else nextId + 1)
  }

  /** How many of the documents come without an id. */
  function Unnumbered(docs: seq<NewDoc>): nat {
    if docs == [] then 0 else Unnumbered(docs[..|docs| - 1]) + if docs[|docs| - 1].id.None? then 1 else 0
  }

  lemma {:induction false} UnnumberedMore(doc: NewDoc, docs: seq<NewDoc>)
    ensures Unnumbered([doc] + docs) == Unnumbered(docs) + if doc.id.None? then 1 else 0
  {
    var all := [doc] + docs;
    if docs == [] {
      assert all[..0] == [];
    } else {
      UnnumberedMore(doc, docs[..|docs| - 1]);
      assert all[..|all| - 1] == [doc] + docs[..|docs| - 1];
    }
  }

  /** The documents keep their ids, and those without take consecutive numbers. */
  lemma {:induction false} AssignedAt(docs: seq<NewDoc>, nextId: int, i: nat)
    requires i < |docs|
    ensures |Assigned(docs, nextId)| == |docs|
    ensures Assigned(docs, nextId)[i] ==
            Doc(if docs[i].id.Some? then docs[i].id.value else nextId + Unnumbered(docs[..i]), docs[i].fields)
    decreases docs
  {
    var next := if docs[0].id.Some? then nextId else nextId + 1;
    if |docs| > 1 {
      AssignedAt(docs[1..], next, if i == 0 then 0 else i - 1);
    }
    if i > 0 {
      UnnumberedMore(docs[0], docs[1..][..i - 1]);
      assert [docs[0]] + docs[1..][..i - 1] == docs[..i];
    }
  }

  predicate NoDuplicates(docs: seq<Doc>, live: map<int, Fields>) {
    (forall i :: 0 <= i < |docs| ==> docs[i].id !in live) && forall i, j :: 0 <= i < j < |docs| ==> docs[i].id != docs[j].id
  }

  function Matching(docs: seq<Doc>, filter: Doc -> bool): seq<Doc> {
    if docs == [] then []
    else Matching(docs[..|docs| - 1], filter) + if filter(docs[|docs| - 1]) then [docs[|docs| - 1]] else []
  }

  /** The documents that an operation is about: all that match, or only the first. */
  function Targets(d: Documents, filter: Doc -> bool, multi: bool): seq<Doc> {
    var all := Matching(AllDocs(d), filter);
    if multi || all == [] then all else all[..1]
  }

  /** A live document that matches. */
  predicate Hit(d: Documents, filter: Doc -> bool, id: int) { id in d.live && filter(Doc(id, d.live[id])) }

  /** The live documents that an operation is for: those that match, or without `multi` the one that none precedes. */
  ghost function Selected(d: Documents, filter: Doc -> bool, multi: bool): set<int> {
    set id | id in d.live && Hit(d, filter, id) && (multi || forall a :: Hit(d, filter, a) ==> !Precedes(d.order, a, id))
  }

  ghost function IdsOf(docs: seq<Doc>): set<int> { set doc | doc in docs :: doc.id }

  /** The change leaves the ids of these documents alone. */
  ghost predicate IdsKept(d: Documents, ids: set<int>, change: Doc -> Option<Doc>) {
    forall id :: id in ids && id in d.live && change(Doc(id, d.live[id])).Some? ==>
      change(Doc(id, d.live[id])).value.id == id
  }

  /** These documents have their changed fields, and nothing else is different. */
  ghost predicate Rewritten(d: Documents, after: Documents, ids: set<int>, change: Doc -> Option<Doc>) {
    && after.order == d.order && after.live.Keys == d.live.Keys
    && forall id :: id in d.live ==>
         if id in ids then change(Doc(id, d.live[id])) == Some(Doc(id, after.live[id])) else after.live[id] == d.live[id]
  }

  /** What an upsert makes when nothing matches: the id that the filter names, if any, and the document for an id. */
  datatype Upsert = Upsert(id: Option<int>, build: int -> Option<Doc>)

  /** The changed documents, if no change raises an exception. */
  function Changed(docs: seq<Doc>, change: Doc -> Option<Doc>): Option<seq<Doc>> {
    if docs == [] then Some([])
    else
      var front, last := Changed(docs[..|docs| - 1], change), change(docs[|docs| - 1]);
      if front.Some? && last.Some? then Some(front.value + [last.value]) else None
  }

  /** The fields that every row has. */
  const META_FIELDS := {"_id", "_deleted", "_version"}

  /** The fields of documents, apart from those. */
  function FieldNames(docs: seq<NewDoc>): set<string> {
    set doc, name | doc in docs && name in doc.fields && name !in META_FIELDS :: name
  }

  predicate KnownFields(docs: seq<NewDoc>, names: set<string>) {
    forall i, name :: 0 <= i < |docs| && name in docs[i].fields ==> name in names || name in META_FIELDS
  }

  // ---------- The types that the first documents give their fields ----------

  datatype ValueClass = NoValue | Text | Bytes | Boolean | Integer | Floating | Container | Other

  /** The class of a value, given those of the values that are neither lists nor dictionaries. */
  function ClassOf(j: Json, scalars: string -> ValueClass): ValueClass {
    if j.Scalar? then scalars(j.text) else Container
  }

  /** The type of a column, and whether its strings hold JSON. */
  datatype ColumnType = ColumnType(stored: Table.FieldType, json: bool)

  /** Every value of the field is None or of one of the classes. */
  predicate AllOf(docs: seq<NewDoc>, name: string, scalars: string -> ValueClass, classes: set<ValueClass>) {
    forall i :: 0 <= i < |docs| && name in docs[i].fields ==>
      var c := ClassOf(docs[i].fields[name], scalars);
      c == NoValue || c in classes
  }

  /** _infer_type; None is its exception. */
  function InferType(docs: seq<NewDoc>, name: string, scalars: string -> ValueClass): Option<ColumnType> {
    if AllOf(docs, name, scalars, {}) then Some(ColumnType(Table.Float64, false))
    else if AllOf(docs, name, scalars, {Text}) then Some(ColumnType(Table.String, false))
    else if AllOf(docs, name, scalars, {Bytes}) then Some(ColumnType(Table.Blob, false))
    else if AllOf(docs, name, scalars, {Container}) then Some(ColumnType(Table.String, true))
    else if AllOf(docs, name, scalars, {Boolean}) then Some(ColumnType(Table.Bool, false))
    else if AllOf(docs, name, scalars, {Integer}) then Some(ColumnType(Table.Int64, false))
    else if AllOf(docs, name, scalars, {Integer, Floating}) then Some(ColumnType(Table.Float64, false))
    else None
  }

  predicate Alike(a: ValueClass, b: ValueClass) {
    a == NoValue || b == NoValue || (a == b && a != Other) || (a in {Integer, Floating} && b in {Integer, Floating})
  }

  /** Any two values of the field have the same class, where integers and floats go together. */
  predicate Uniform(docs: seq<NewDoc>, name: string, scalars: string -> ValueClass) {
    forall i, j :: 0 <= i < |docs| && 0 <= j < |docs| && name in docs[i].fields && name in docs[j].fields ==>
      Alike(ClassOf(docs[i].fields[name], scalars), ClassOf(docs[j].fields[name], scalars))
  }

  /** A type is found exactly for the fields whose values go together. */
  lemma InferTypeExactly(docs: seq<NewDoc>, name: string, scalars: string -> ValueClass)
    ensures InferType(docs, name, scalars).Some? <==> Uniform(docs, name, scalars)
  {
    hide ClassOf, AllOf, Uniform;
    if Uniform(docs, name, scalars) {
      UniformIsGroup(docs, name, scalars);
    } else {
      forall classes: set<ValueClass> | forall a, b :: a in classes && b in classes ==> Alike(a, b)
        ensures !AllOf(docs, name, scalars, classes)
      {
        if AllOf(docs, name, scalars, classes) {
          GroupIsUniform(docs, name, scalars, classes);
        }
      }
    }
  }

  /** Some document has a value of the class in the field. */
  predicate Holds(docs: seq<NewDoc>, name: string, scalars: string -> ValueClass, c: ValueClass) {
    exists i :: 0 <= i < |docs| && name in docs[i].fields && ClassOf(docs[i].fields[name], scalars) == c
  }

  lemma HeldClass(docs: seq<NewDoc>, name: string, scalars: string -> ValueClass, c: ValueClass, classes: set<ValueClass>)
    requires Holds(docs, name, scalars, c) && c != NoValue && c !in classes
    ensures !AllOf(docs, name, scalars, classes)
  {
  }

  /** A field that holds nothing but None is a float field. */
  lemma NothingHeld(docs: seq<NewDoc>, name: string, scalars: string -> ValueClass)
    requires forall c :: Holds(docs, name, scalars, c) ==> c == NoValue
    ensures InferType(docs, name, scalars) == Some(ColumnType(Table.Float64, false))
  {
    forall i | 0 <= i < |docs| && name in docs[i].fields
      ensures ClassOf(docs[i].fields[name], scalars) == NoValue
    {
      assert Holds(docs, name, scalars, ClassOf(docs[i].fields[name], scalars));
    }
  }

  /** Which type is found: that of any value of the field, where one float makes a field of numbers a float field. */
  lemma InferTypeMeans(docs: seq<NewDoc>, name: string, scalars: string -> ValueClass, c: ValueClass)
    requires InferType(docs, name, scalars).Some? && Holds(docs, name, scalars, c) && c != NoValue
    ensures InferType(docs, name, scalars).value ==
            match c
            case Text => ColumnType(Table.String, false)
            case Bytes => ColumnType(Table.Blob, false)
            case Container => ColumnType(Table.String, true)
            case Boolean => ColumnType(Table.Bool, false)
            case _ => ColumnType(if Holds(docs, name, scalars, Floating) then Table.Float64 else Table.Int64, false)
  {
    hide AllOf, Holds;
    HeldClass(docs, name, scalars, c, {});
    forall classes: set<ValueClass> | c !in classes
      ensures !AllOf(docs, name, scalars, classes)
    {
      HeldClass(docs, name, scalars, c, classes);
    }
    if Holds(docs, name, scalars, Floating) {
      HeldClass(docs, name, scalars, Floating, {Integer});
    } else if AllOf(docs, name, scalars, {Integer, Floating}) {
      NoFloat(docs, name, scalars);
    }
  }

  lemma NoFloat(docs: seq<NewDoc>, name: string, scalars: string -> ValueClass)
    requires !Holds(docs, name, scalars, Floating) && AllOf(docs, name, scalars, {Integer, Floating})
    ensures AllOf(docs, name, scalars, {Integer})
  {
  }

  lemma GroupIsUniform(docs: seq<NewDoc>, name: string, scalars: string -> ValueClass, classes: set<ValueClass>)
    requires AllOf(docs, name, scalars, classes) && forall a, b :: a in classes && b in classes ==> Alike(a, b)
    ensures Uniform(docs, name, scalars)
  {
    hide ClassOf;
  }

  lemma UniformIsGroup(docs: seq<NewDoc>, name: string, scalars: string -> ValueClass)
    requires Uniform(docs, name, scalars)
    ensures AllOf(docs, name, scalars, {}) ||
            exists c: ValueClass :: c != NoValue && c != Other &&
              AllOf(docs, name, scalars, if c in {Integer, Floating} then {Integer, Floating} else {c})
  {
    hide ClassOf;
    if !AllOf(docs, name, scalars, {}) {
      var k :| 0 <= k < |docs| && name in docs[k].fields && ClassOf(docs[k].fields[name], scalars) != NoValue;
      var c := ClassOf(docs[k].fields[name], scalars);
      assert AllOf(docs, name, scalars, if c in {Integer, Floating} then {Integer, Floating} else {c});
    }
  }

  predicate AllUniform(docs: seq<NewDoc>, scalars: string -> ValueClass) {
    forall name :: name in FieldNames(docs) ==> Uniform(docs, name, scalars)
  }

  type Schema = map<string, ColumnType>

  /** The schema that documents give a collection. */
  ghost predicate IsSchemaOf(schema: Schema, docs: seq<NewDoc>, scalars: string -> ValueClass) {
    && schema.Keys == FieldNames(docs)
    && forall name :: name in schema ==> InferType(docs, name, scalars) == Some(schema[name])
  }

  /** A change that raises an exception for a document with an unknown field. */
  function WithinSchema(change: Doc -> Option<Doc>, names: set<string>): Doc -> Option<Doc> {
    doc => var changed := change(doc);
           if changed.Some? && changed.value.fields.Keys <= names + META_FIELDS then changed else None
  }

  predicate HasId(docs: seq<Doc>, id: int) { exists k :: 0 <= k < |docs| && docs[k].id == id }

  class Collection {
    /** The results of _next_version, by the number of the call. */
    const versionOf: nat -> int
    /** The classes of the values that are neither lists nor dictionaries. */
    const scalars: string -> ValueClass
    var log: seq<LogRow>
    var nextId: int
    var versions: nat
    var schema: Option<Schema>

    /** The first `n` versions rise: _next_version does not promise it. */
    ghost predicate Rising(n: nat) { RisingVersions(versionOf, n) }

    ghost predicate Valid()
      reads this
    {
      && Rising(versions) && Ascending(log)
      && (forall i :: 0 <= i < |log| ==> log[i].version <= versionOf(versions))
      && (log != [] ==> versions > 0 && schema.Some?)
    }

    /** As far as the versions have risen, the collection is valid. */
    ghost predicate Sound()
      reads this
    {
      (Rising(versions) ==> Valid()) && (log != [] ==> versions > 0 && schema.Some?)
    }

    ghost function State(): Documents
      reads this
    {
      Meaning(log)
    }

    constructor (versionOf: nat -> int, scalars: string -> ValueClass)
      ensures Valid() && State() == NO_DOCUMENTS && nextId == 1
    {
      this.versionOf, this.scalars := versionOf, scalars;
      log, nextId, versions, schema := [], 1, 0, None;
    }

    /** _latest_documents. */
    method LatestDocuments() returns (docs: seq<Doc>)
      requires Valid()
      ensures docs == AllDocs(State())
    {
      hide Meaning, Ascending;
      docs := ReadLog();
      forall id
        ensures LastIsHighest(log, id)
      {
        AscendingIsReadable(log, id);
      }
      MeaningByLastRow(log, 0);
      SurvivorsAreListed(log, FirstSeen(log));
    }

    /** The loop over the rows of a scan, and the selection at its end, for any log. */
    method ReadLog() returns (docs: seq<Doc>)
      ensures docs == Survivors(log, FirstSeen(log))
    {
      hide Tracks, FirstSeen, NewestAt;
      var latest, order := CollectLatest();
      TracksOrder(log, latest, order);
      docs := [];
      for i := 0 to |order|
        invariant docs == Survivors(log, order[..i])
      {
        assert order[..i + 1][..i] == order[..i];
        TracksAt(log, latest, order, i);
        var row := log[latest[order[i]]];
        if !row.deleted {
          docs := docs + [row.doc];
        }
      }
      assert order[..|order|] == order;
    }

    /** The dictionary of latest rows, with its keys in the order of their insertion. */
    method CollectLatest() returns (latest: map<int, nat>, order: seq<int>)
      ensures Tracks(log, latest, order)
    {
      hide Tracks;
      latest, order := map[], [];
      TracksNothing();
      for n := 0 to |log|
        invariant Tracks(log[..n], latest, order)
      {
        assert log[..n + 1] == log[..n] + [log[n]];
        TracksMore(log[..n], latest, order, log[n]);
        var row := log[n];
        var id := row.doc.id;
        if id !in latest || row.version > log[latest[id]].version {
          order := Listing(order, id);
          latest := latest[id := n];
        }
      }
      assert log[..|log|] == log;
    }

    /** _next_id. */
    method NextId() returns (id: int)
      modifies this`nextId
      ensures id == old(nextId) && nextId == old(nextId) + 1
    {
      id := nextId;
      nextId := nextId + 1;
    }

    /** One row with a new version. */
    method AppendRow(doc: Doc, deleted: bool)
      requires Sound() && schema.Some?
      modifies this`log, this`versions
      ensures Sound()
      ensures State() == if deleted then Remove(old(State()), doc.id) else Put(old(State()), doc)
    {
      versions := versions + 1;
      var row := LogRow(doc, deleted, versionOf(versions));
      assert (log + [row])[..|log|] == log;
      log := log + [row];
    }

    /** _append_versions. */
    method AppendVersions(docs: seq<Doc>, deleted: bool)
      requires Sound() && schema.Some?
      modifies this`log, this`versions
      ensures Sound()
      ensures State() == if deleted then RemoveAll(old(State()), docs) else PutAll(old(State()), docs)
    {
      hide Meaning;
      for i := 0 to |docs|
        invariant Sound()
        invariant State() == if deleted then RemoveAll(old(State()), docs[..i]) else PutAll(old(State()), docs[..i])
      {
        assert docs[..i + 1][..i] == docs[..i];
        AppendRow(docs[i], deleted);
      }
      assert docs[..|docs|] == docs;
    }

    /**
     insert_many: all documents, or none if a field is unknown or an id is taken
     or given twice. They share one version. The first documents give the fields
     of the collection their types, also when their insert fails for an id; a
     field that mixes classes of values has no type.
     */
    method InsertMany(docs: seq<NewDoc>) returns (ok: bool)
      requires Valid()
      modifies this
      ensures Sound()
      ensures ok <==> docs == [] || ((if old(schema).Some? then KnownFields(docs, old(schema).value.Keys)
                                      else AllUniform(docs, scalars)) &&
                                     NoDuplicates(Assigned(docs, old(nextId)), old(State()).live))
      ensures State() == if ok then PutAll(old(State()), Assigned(docs, old(nextId))) else old(State())
      ensures docs == [] || old(schema).Some? || !AllUniform(docs, scalars) ==> schema == old(schema)
      ensures docs != [] && old(schema).None? && AllUniform(docs, scalars) ==>
                schema.Some? && IsSchemaOf(schema.value, docs, scalars)
    {
      hide Meaning, Assigned, NoDuplicates, FieldNames, KnownFields, AllUniform, IsSchemaOf;
      if docs == [] {
        NothingAssigned(nextId);
        return true;
      }
      var existing := LatestDocuments();
      var known := EnsureSchema(docs);
      if !known {
        return false;
      }
      versions := versions + 1;
      var withIds;
      ok, withIds := AssignIds(docs, existing);
      if ok {
        AppendBatch(withIds);
      }
    }

    /** _ensure_schema. */
    method EnsureSchema(docs: seq<NewDoc>) returns (known: bool)
      modifies this`schema
      ensures old(schema).Some? ==> schema == old(schema) && (known <==> KnownFields(docs, schema.value.Keys))
      ensures old(schema).None? ==> (known <==> AllUniform(docs, scalars))
      ensures old(schema).None? && !known ==> schema == None
      ensures old(schema).None? && known ==> schema.Some? && IsSchemaOf(schema.value, docs, scalars)
    {
      hide FieldNames, InferType, Uniform;
      if schema.None? {
        var types;
        known, types := InferTypes(docs);
        if known {
          schema := Some(types);
        }
        return;
      }
      for i := 0 to |docs|
        invariant KnownFields(docs[..i], schema.value.Keys)
      {
        var extra := docs[i].fields.Keys - schema.value.Keys - META_FIELDS;
        if extra != {} {
          var name :| name in extra;
          return false;
        }
      }
      assert docs[..|docs|] == docs;
      return true;
    }

    /** The types of all fields, in whatever order they are looked at. */
    method InferTypes(docs: seq<NewDoc>) returns (ok: bool, types: Schema)
      ensures ok <==> AllUniform(docs, scalars)
      ensures ok ==> IsSchemaOf(types, docs, scalars)
    {
      hide FieldNames, InferType, Uniform, AllUniform, IsSchemaOf;
      var rest := FieldNames(docs);
      types := map[];
      while rest != {}
        invariant types.Keys + rest == FieldNames(docs) && types.Keys !! rest
        invariant forall name :: name in types ==> InferType(docs, name, scalars) == Some(types[name])
        invariant forall name :: name in types ==> Uniform(docs, name, scalars)
        decreases |rest|
      {
        var name :| name in rest;
        InferTypeExactly(docs, name, scalars);
        var found := InferType(docs, name, scalars);
        if found.None? {
          OneMixed(docs, name);
          return false, types;
        }
        types, rest := types[name := found.value], rest - {name};
      }
      AllTyped(docs, types);
      ok := true;
    }

    lemma OneMixed(docs: seq<NewDoc>, name: string)
      requires name in FieldNames(docs) && !Uniform(docs, name, scalars)
      ensures !AllUniform(docs, scalars)
    {
    }

    lemma AllTyped(docs: seq<NewDoc>, types: Schema)
      requires types.Keys == FieldNames(docs)
      requires forall name :: name in types ==>
                 InferType(docs, name, scalars) == Some(types[name]) && Uniform(docs, name, scalars)
      ensures AllUniform(docs, scalars) && IsSchemaOf(types, docs, scalars)
    {
      hide FieldNames, InferType, Uniform;
    }

    lemma NothingAssigned(n: int)
      ensures Assigned([], n) == []
    {
    }

    /** The ids of the listed documents are the live ids. */
    lemma ExistingIds(d: Documents)
      requires d == State()
      ensures forall id :: id in d.live <==> HasId(AllDocs(d), id)
    {
      hide Meaning;
      MeaningOrderly(log);
      ListedExactly(d.order, d.live);
      forall id
        ensures id in d.live <==> HasId(AllDocs(d), id)
      {
        if id in d.live {
          assert Doc(id, d.live[id]) in AllDocs(d);
        }
        if k :| 0 <= k < |AllDocs(d)| && AllDocs(d)[k].id == id {
          assert AllDocs(d)[k] in AllDocs(d);
        }
      }
    }

    /** The loop of insert_many that gives out ids and looks for duplicates. */
    method AssignIds(docs: seq<NewDoc>, existing: seq<Doc>) returns (ok: bool, withIds: seq<Doc>)
      requires existing == AllDocs(State())
      modifies this`nextId
      ensures ok <==> NoDuplicates(Assigned(docs, old(nextId)), State().live)
      ensures ok ==> withIds == Assigned(docs, old(nextId))
      ensures ok ==> forall i, j :: 0 <= i < j < |withIds| ==> withIds[i].id != withIds[j].id
    {
      hide Meaning, NoDuplicates, Listed, Assigned, HasId;
      ExistingIds(State());
      NoneTwice(State().live);
      ghost var all := Assigned(docs, nextId);
      assert docs[0..] == docs;
      withIds := [];
      for i := 0 to |docs|
        invariant all == withIds + Assigned(docs[i..], nextId)
        invariant NoDuplicates(withIds, State().live)
      {
        AssignedStep(docs, i, nextId);
        ghost var rest := Assigned(docs[i + 1..], if docs[i].id.Some? then nextId else nextId + 1);
        var free, doc := AssignOne(docs[i], existing, withIds);
        assert all == (withIds + [doc]) + rest;
        if !free {
          TakenAlready(all, withIds, doc, State().live);
          return false, withIds;
        }
        StillNoDuplicates(withIds, doc, State().live);
        withIds := withIds + [doc];
      }
      NothingAssigned(nextId);
      assert docs[|docs|..] == [] && all == withIds;
      DistinctDocs(withIds, State().live);
      ok := true;
    }

    /** One turn of the loop: the id of a document, and whether nobody has it. */
    method AssignOne(doc: NewDoc, existing: seq<Doc>, withIds: seq<Doc>) returns (free: bool, withId: Doc)
      modifies this`nextId
      ensures withId == Doc(if doc.id.Some? then doc.id.value else old(nextId), doc.fields)
      ensures nextId == if doc.id.Some? then old(nextId) else old(nextId) + 1
      ensures free <==> !HasId(existing, withId.id) && !HasId(withIds, withId.id)
    {
      hide HasId;
      var id;
      if doc.id.None? {
        id := NextId();
      } else {
        id := doc.id.value;
      }
      withId := Doc(id, doc.fields);
      var taken := IsTaken(existing, id);
      var given := IsTaken(withIds, id);
      free := !taken && !given;
    }

    lemma AssignedStep(docs: seq<NewDoc>, i: nat, n: int)
      requires i < |docs|
      ensures Assigned(docs[i..], n) ==
              [Doc(if docs[i].id.Some? then docs[i].id.value else n, docs[i].fields)] +
              Assigned(docs[i + 1..], if docs[i].id.Some? then n else n + 1)
    {
      assert docs[i..][0] == docs[i] && docs[i..][1..] == docs[i + 1..];
    }

    lemma NoneTwice(live: map<int, Fields>)
      ensures NoDuplicates([], live)
    {
    }

    lemma DistinctDocs(docs: seq<Doc>, live: map<int, Fields>)
      requires NoDuplicates(docs, live)
      ensures forall i, j :: 0 <= i < j < |docs| ==> docs[i].id != docs[j].id
    {
    }

    /** `doc_id in ids`. */
    method IsTaken(docs: seq<Doc>, id: int) returns (taken: bool)
      ensures taken <==> HasId(docs, id)
    {
      for k := 0 to |docs|
        invariant forall m :: 0 <= m < k ==> docs[m].id != id
      {
        if docs[k].id == id {
          return true;
        }
      }
      return false;
    }

    lemma StillNoDuplicates(front: seq<Doc>, doc: Doc, live: map<int, Fields>)
      requires NoDuplicates(front, live) && doc.id !in live && !HasId(front, doc.id)
      ensures NoDuplicates(front + [doc], live)
    {
    }

    lemma TakenAlready(all: seq<Doc>, front: seq<Doc>, doc: Doc, live: map<int, Fields>)
      requires front + [doc] <= all
      requires doc.id in live || HasId(front, doc.id)
      ensures !NoDuplicates(all, live)
    {
      assert all[|front|] == (front + [doc])[|front|] == doc;
      if k :| 0 <= k < |front| && front[k].id == doc.id {
        assert all[k] == (front + [doc])[k] == front[k];
      }
    }

    /** The rows of an insert: new ids, or ids whose last row is a tombstone, under the current version. */
    method AppendBatch(docs: seq<Doc>)
      requires versions > 0 && schema.Some?
      requires Rising(versions) ==> Ascending(log) && forall i :: 0 <= i < |log| ==> log[i].version < versionOf(versions)
      requires forall i, j :: 0 <= i < j < |docs| ==> docs[i].id != docs[j].id
      modifies this`log
      ensures Sound() && State() == PutAll(old(State()), docs)
    {
      hide Meaning;
      for i := 0 to |docs|
        invariant |old(log)| + i == |log| && old(log) <= log
        invariant Rising(versions) ==> Ascending(log) && forall k :: 0 <= k < |log| ==> log[k].version <= versionOf(versions)
        invariant forall k :: |old(log)| <= k < |log| ==> log[k].doc == docs[k - |old(log)|]
        invariant State() == PutAll(old(State()), docs[..i])
      {
        assert docs[..i + 1][..i] == docs[..i];
        var row := LogRow(docs[i], false, versionOf(versions));
        MeaningMore(log, row);
        log := log + [row];
      }
      assert docs[..|docs|] == docs;
    }

    lemma MeaningMore(log: seq<LogRow>, row: LogRow)
      ensures Meaning(log + [row]) == if row.deleted then Remove(Meaning(log), row.doc.id) else Put(Meaning(log), row.doc)
    {
      assert (log + [row])[..|log|] == log;
    }

    /** The matching documents, at most one unless `multi`. */
    method FindTargets(filter: Doc -> bool, multi: bool) returns (targets: seq<Doc>)
      requires Valid()
      ensures targets == Targets(State(), filter, multi)
    {
      hide Meaning;
      var docs := LatestDocuments();
      targets := [];
      for i := 0 to |docs|
        invariant targets == Matching(docs[..i], filter)
      {
        assert docs[..i + 1][..i] == docs[..i];
        if filter(docs[i]) {
          targets := targets + [docs[i]];
        }
      }
      assert docs[..|docs|] == docs;
      if !multi && targets != [] {
        targets := targets[..1];
      }
    }

    /**
     _update: update_one, update_many and replace_one. Every selected document is
     replaced by its changed one, and nothing else changes if that keeps ids;
     where nothing is selected an upsert adds one document, which takes the place
     of a live document that has the same id. A field that the schema does not
     know makes the whole update fail.
     */
    method Update(filter: Doc -> bool, change: Doc -> Option<Doc>, multi: bool, upsert: Option<Upsert>)
        returns (ok: bool, matched: nat, modified: nat)
      requires Valid()
      modifies this
      ensures Sound()
      ensures var d, ids := old(State()), Selected(old(State()), filter, multi);
              if ids == {} && upsert.None? then ok && matched == modified == 0 && State() == d
              else if ids == {} then
                var id := if upsert.value.id.Some? then upsert.value.id.value else old(nextId);
                && (ok <==> old(schema).Some? && upsert.value.build(id).Some? &&
                            upsert.value.build(id).value.fields.Keys <= old(schema).value.Keys + META_FIELDS)
                && (ok ==> matched == 0 && modified == 1)
                && State() == if ok then Put(d, upsert.value.build(id).value) else d
              else
                old(schema).Some? &&
                var within := WithinSchema(change, old(schema).value.Keys);
                var changed := Changed(Targets(d, filter, multi), within);
                && (ok <==> forall id :: id in ids ==> within(Doc(id, d.live[id])).Some?)
                && (ok ==> matched == modified == |ids|)
                && (ok ==> changed.Some? && State() == PutAll(d, changed.value))
                && (ok && IdsKept(d, ids, within) ==> Rewritten(d, State(), ids, within))
                && (!ok ==> State() == d)
    {
      hide Meaning, Selected, Targets, IdsKept, Rewritten, Changed;
      var targets := FindTargets(filter, multi);
      matched, modified := |targets|, 0;
      ghost var d := State();
      MeaningOrderly(log);
      SelectedCounted(d, filter, multi);
      if targets == [] && upsert.None? {
        return true, 0, 0;
      }
      SchemaIfTargets(filter, multi);
      if schema.None? {
        return false, matched, 0;
      }
      var changed: seq<Doc> := [];
      if targets == [] {
        var id;
        if upsert.value.id.Some? {
          id := upsert.value.id.value;
        } else {
          id := NextId();
        }
        var doc := upsert.value.build(id);
        if doc.None? || !(doc.value.fields.Keys <= schema.value.Keys + META_FIELDS) {
          return false, matched, 0;
        }
        changed := [doc.value];
        OnePut(State(), doc.value);
      } else {
        var within := WithinSchema(change, schema.value.Keys);
        UpdateMeans(d, filter, within, multi);
        ok, changed := ChangeAll(targets, within);
        if !ok {
          return false, matched, 0;
        }
      }
      AppendVersions(changed, false);
      return true, matched, |changed|;
    }

    /** The loop over the targets. */
    method ChangeAll(targets: seq<Doc>, change: Doc -> Option<Doc>) returns (ok: bool, changed: seq<Doc>)
      ensures ok <==> Changed(targets, change).Some?
      ensures ok ==> changed == Changed(targets, change).value && |changed| == |targets|
    {
      changed := [];
      for i := 0 to |targets|
        invariant Changed(targets[..i], change) == Some(changed)
      {
        assert targets[..i + 1][..i] == targets[..i];
        var doc := change(targets[i]);
        if doc.None? {
          NoneChanged(targets, change, i);
          return false, changed;
        }
        changed := changed + [doc.value];
      }
      assert targets[..|targets|] == targets;
      ChangedAt(targets, change);
      ok := true;
    }

    /** Without a schema there are no documents. */
    lemma SchemaIfTargets(filter: Doc -> bool, multi: bool)
      requires Valid()
      ensures schema.None? ==> Targets(State(), filter, multi) == []
    {
    }

    lemma OnePut(d: Documents, doc: Doc)
      ensures PutAll(d, [doc]) == Put(d, doc)
    {
      assert [doc][..0] == [];
    }

    lemma {:induction false} NoneChanged(docs: seq<Doc>, change: Doc -> Option<Doc>, i: nat)
      requires i < |docs| && change(docs[i]).None?
      ensures Changed(docs, change).None?
    {
      if i < |docs| - 1 {
        NoneChanged(docs[..|docs| - 1], change, i);
      }
    }

    /** _delete: a tombstone for every selected document; exactly those are gone. */
    method Delete(filter: Doc -> bool, multi: bool) returns (deleted: nat)
      requires Valid()
      modifies this
      ensures Sound()
      ensures var ids := Selected(old(State()), filter, multi);
              deleted == |ids| && State() == Documents(old(State()).order, old(State()).live - ids)
    {
      hide Meaning, Selected, Targets, RemoveAll, IdsOf;
      var targets := FindTargets(filter, multi);
      MeaningOrderly(log);
      TargetsExactly(State(), filter, multi);
      RemovedTargets(State(), targets);
      if targets == [] {
        return 0;
      }
      SchemaIfTargets(filter, multi);
      AppendVersions(targets, true);
      return |targets|;
    }
  }

  // ---------- What the operations do to the dictionary ----------

  /** A change that leaves the id of every document alone. */
  ghost predicate KeepsIds(docs: seq<Doc>, change: Doc -> Option<Doc>) {
    forall i :: 0 <= i < |docs| && change(docs[i]).Some? ==> change(docs[i]).value.id == docs[i].id
  }

  /** Putting documents adds or replaces exactly their ids; the last document of an id counts. */
  lemma {:induction false} PutAllMeans(d: Documents, docs: seq<Doc>, id: int)
    requires forall i, j :: 0 <= i < j < |docs| ==> docs[i].id != docs[j].id
    ensures forall i :: 0 <= i < |docs| ==> docs[i].id in PutAll(d, docs).live && PutAll(d, docs).live[docs[i].id] == docs[i].fields
    ensures (forall i :: 0 <= i < |docs| ==> docs[i].id != id) ==>
              (id in PutAll(d, docs).live <==> id in d.live) &&
              (id in d.live ==> PutAll(d, docs).live[id] == d.live[id])
  {
    if docs != [] {
      PutAllMeans(d, docs[..|docs| - 1], id);
      PutAllMeans(d, docs[..|docs| - 1], docs[|docs| - 1].id);
    }
  }

  /** Deleted documents are gone, the others stay; their ids are free for an insert. */
  lemma {:induction false} RemoveAllMeans(d: Documents, docs: seq<Doc>, id: int)
    ensures id in RemoveAll(d, docs).live <==> id in d.live && forall i :: 0 <= i < |docs| ==> docs[i].id != id
    ensures id in RemoveAll(d, docs).live ==> RemoveAll(d, docs).live[id] == d.live[id]
  {
    if docs != [] {
      RemoveAllMeans(d, docs[..|docs| - 1], id);
    }
  }

  lemma {:induction false} ChangedAt(docs: seq<Doc>, change: Doc -> Option<Doc>)
    requires Changed(docs, change).Some?
    ensures |Changed(docs, change).value| == |docs|
    ensures forall i :: 0 <= i < |docs| ==> change(docs[i]) == Some(Changed(docs, change).value[i])
  {
    if docs != [] {
      ChangedAt(docs[..|docs| - 1], change);
    }
  }

  lemma {:induction false} RemovedTargets(d: Documents, docs: seq<Doc>)
    requires Orderly(d) && forall doc :: doc in docs ==> doc.id in d.live
    ensures RemoveAll(d, docs) == Documents(d.order, d.live - IdsOf(docs))
    ensures IdsOf(docs) == {} <==> docs == []
  {
    if docs != [] {
      var front, last := docs[..|docs| - 1], docs[|docs| - 1];
      RemovedTargets(d, front);
      assert docs == front + [last];
      assert IdsOf(docs) == IdsOf(front) + {last.id};
      assert d.live - IdsOf(docs) == (d.live - IdsOf(front)) - {last.id};
    }
  }

  lemma {:induction false} PutAllOrder(d: Documents, docs: seq<Doc>)
    requires forall doc :: doc in docs ==> doc.id in d.order
    ensures PutAll(d, docs).order == d.order
  {
    if docs != [] {
      PutAllOrder(d, docs[..|docs| - 1]);
      assert docs[|docs| - 1] in docs;
    }
  }

  /**
   An update that leaves ids alone gives each target its changed fields and
   touches no other document; it neither adds nor removes one.
   */
  lemma UpdateIsPointwise(d: Documents, targets: seq<Doc>, change: Doc -> Option<Doc>, id: int)
    requires Changed(targets, change).Some? && KeepsIds(targets, change)
    requires forall i, j :: 0 <= i < j < |targets| ==> targets[i].id != targets[j].id
    requires forall i :: 0 <= i < |targets| ==> targets[i].id in d.live
    ensures var after := PutAll(d, Changed(targets, change).value);
            && (id in after.live <==> id in d.live)
            && (forall i :: 0 <= i < |targets| ==>
                  targets[i].id in after.live && change(targets[i]) == Some(Doc(targets[i].id, after.live[targets[i].id])))
            && (id in d.live && (forall i :: 0 <= i < |targets| ==> targets[i].id != id) ==> after.live[id] == d.live[id])
  {
    hide Changed, PutAll;
    var changed := Changed(targets, change).value;
    ChangedAt(targets, change);
    PutAllMeans(d, changed, id);
  }

  lemma {:induction false} MatchingIsPart(docs: seq<Doc>, filter: Doc -> bool)
    requires forall i, j :: 0 <= i < j < |docs| ==> docs[i].id != docs[j].id
    ensures forall doc :: doc in Matching(docs, filter) <==> doc in docs && filter(doc)
    ensures forall i, j :: 0 <= i < j < |Matching(docs, filter)| ==> Matching(docs, filter)[i].id != Matching(docs, filter)[j].id
  {
    if docs != [] {
      var front := docs[..|docs| - 1];
      MatchingIsPart(front, filter);
      assert forall i :: 0 <= i < |Matching(front, filter)| ==> Matching(front, filter)[i] in front;
    }
  }

  /** The targets of an operation are live documents with distinct ids, as the lemmas above need them. */
  lemma TargetsAreLive(d: Documents, filter: Doc -> bool, multi: bool)
    requires Orderly(d)
    ensures var targets := Targets(d, filter, multi);
            && (forall i, j :: 0 <= i < j < |targets| ==> targets[i].id != targets[j].id)
            && forall i :: 0 <= i < |targets| ==>
                 filter(targets[i]) && targets[i].id in d.live && targets[i].fields == d.live[targets[i].id]
  {
    hide Matching, Listed;
    ListedExactly(d.order, d.live);
    MatchingIsPart(AllDocs(d), filter);
    var targets := Targets(d, filter, multi);
    assert forall i :: 0 <= i < |targets| ==> targets[i] in Matching(AllDocs(d), filter);
  }

  /** The matching documents come in the order of the dictionary. */
  lemma {:induction false} MatchingInOrder(order: seq<int>, live: map<int, Fields>, filter: Doc -> bool)
    ensures forall doc :: doc in Matching(Listed(order, live), filter) ==> doc.id in order
    ensures var all := Matching(Listed(order, live), filter);
            forall j :: 0 < j < |all| ==> Precedes(order, all[0].id, all[j].id)
  {
    hide Precedes, Matching, Listed;
    if order == [] {
      NothingMatches(live, filter);
    } else {
      var front, id := order[..|order| - 1], order[|order| - 1];
      MatchingInOrder(front, live, filter);
      var before, all := Matching(Listed(front, live), filter), Matching(Listed(order, live), filter);
      MatchingMore(order, live, filter);
      assert front + [id] == order;
      forall j | 0 < j < |all|
        ensures Precedes(order, all[0].id, all[j].id)
      {
        assert all[0] == before[0] && before[0] in before;
        if j < |before| {
          assert all[j] == before[j];
        } else {
          assert all[j].id == id;
        }
        PrecedesExactly(front, id, all[0].id, all[j].id);
      }
    }
  }

  lemma NothingMatches(live: map<int, Fields>, filter: Doc -> bool)
    ensures Matching(Listed([], live), filter) == []
  {
  }

  lemma MatchingMore(order: seq<int>, live: map<int, Fields>, filter: Doc -> bool)
    requires order != []
    ensures var id := order[|order| - 1];
            Matching(Listed(order, live), filter) ==
            Matching(Listed(order[..|order| - 1], live), filter) +
            if id in live && filter(Doc(id, live[id])) then [Doc(id, live[id])] else []
  {
    var front, all := Listed(order[..|order| - 1], live), Listed(order, live);
    if order[|order| - 1] in live {
      assert all[..|all| - 1] == front;
    } else {
      assert all == front;
    }
  }

  lemma NotBothWays(order: seq<int>, a: int, b: int)
    requires DistinctIds(order) && Precedes(order, a, b)
    ensures !Precedes(order, b, a) && a != b
  {
  }

  /** With several matches the first is before the others, and nothing is before itself. */
  lemma FirstIsSelected(d: Documents, filter: Doc -> bool)
    requires Orderly(d)
    ensures var all := Matching(AllDocs(d), filter);
            && (forall id :: Hit(d, filter, id) <==> id in IdsOf(all))
            && Selected(d, filter, false) == IdsOf(if all == [] then [] else all[..1])
  {
    hide Precedes, Matching, Listed;
    ListedExactly(d.order, d.live);
    MatchingIsPart(AllDocs(d), filter);
    MatchingInOrder(d.order, d.live, filter);
    var all := Matching(AllDocs(d), filter);
    assert all == Matching(Listed(d.order, d.live), filter);
    forall id
      ensures Hit(d, filter, id) <==> id in IdsOf(all)
    {
      if Hit(d, filter, id) {
        assert Doc(id, d.live[id]) in all;
      }
    }
    if all != [] {
      assert all[0] in all;
      forall j | 0 <= j < |all|
        ensures all[j].id in Selected(d, filter, false) <==> j == 0
      {
        assert all[j] in all;
        FirstAmong(d, filter, all, j);
      }
      assert IdsOf(all[..1]) == {all[0].id};
    }
  }

  lemma FirstAmong(d: Documents, filter: Doc -> bool, all: seq<Doc>, j: nat)
    requires Orderly(d) && j < |all| && forall id :: Hit(d, filter, id) <==> id in IdsOf(all)
    requires forall k :: 0 < k < |all| ==> Precedes(d.order, all[0].id, all[k].id)
    ensures all[j].id in Selected(d, filter, false) <==> j == 0
  {
    hide Precedes;
    assert all[j] in all && all[0] in all;
    if j == 0 {
      forall a | Hit(d, filter, a)
        ensures !Precedes(d.order, a, all[0].id)
      {
        var doc :| doc in all && doc.id == a;
        var k :| 0 <= k < |all| && all[k] == doc;
        if k > 0 {
          NotBothWays(d.order, all[0].id, a);
        } else {
          NotBefore(d.order, a);
        }
      }
    }
  }

  lemma NotBefore(order: seq<int>, a: int)
    requires DistinctIds(order)
    ensures !Precedes(order, a, a)
  {
  }

  lemma {:induction false} IdsCounted(docs: seq<Doc>)
    requires forall i, j :: 0 <= i < j < |docs| ==> docs[i].id != docs[j].id
    ensures |IdsOf(docs)| == |docs|
  {
    if docs != [] {
      var front, last := docs[..|docs| - 1], docs[|docs| - 1];
      IdsCounted(front);
      assert docs == front + [last];
      assert IdsOf(docs) == IdsOf(front) + {last.id};
    }
  }

  /**
   The targets are exactly the selected documents: with `multi` every live
   document that matches, without it the first in the order of the dictionary,
   of which there is one if and only if some live document matches.
   */
  lemma TargetsExactly(d: Documents, filter: Doc -> bool, multi: bool)
    requires Orderly(d)
    ensures var targets, ids := Targets(d, filter, multi), Selected(d, filter, multi);
            && ids == IdsOf(targets) && |ids| == |targets|
            && (forall doc :: doc in targets ==> doc.id in d.live && doc.fields == d.live[doc.id])
            && (multi ==> forall id :: id in ids <==> Hit(d, filter, id))
            && (!multi ==> |ids| == if exists id :: Hit(d, filter, id) then 1 else 0)
  {
    hide Matching, AllDocs, Precedes;
    FirstIsSelected(d, filter);
    TargetsAreLive(d, filter, multi);
    IdsCounted(Targets(d, filter, multi));
    var all := Matching(AllDocs(d), filter);
    if all != [] {
      assert all[0] in all;
      assert Hit(d, filter, all[0].id);
    }
  }

  lemma SelectedCounted(d: Documents, filter: Doc -> bool, multi: bool)
    requires Orderly(d)
    ensures |Selected(d, filter, multi)| == |Targets(d, filter, multi)|
    ensures Selected(d, filter, multi) == {} <==> Targets(d, filter, multi) == []
  {
    hide Selected, Targets;
    TargetsExactly(d, filter, multi);
  }

  /** Changing the targets one after the other changes each selected document, if every change succeeds. */
  lemma UpdateMeans(d: Documents, filter: Doc -> bool, change: Doc -> Option<Doc>, multi: bool)
    requires Orderly(d)
    ensures var ids, changed := Selected(d, filter, multi), Changed(Targets(d, filter, multi), change);
            && (forall id :: id in ids ==> id in d.live)
            && (changed.Some? <==> forall id :: id in ids ==> change(Doc(id, d.live[id])).Some?)
            && (changed.Some? && IdsKept(d, ids, change) ==> Rewritten(d, PutAll(d, changed.value), ids, change))
  {
    hide Selected, Targets, Changed, PutAll;
    var targets, ids := Targets(d, filter, multi), Selected(d, filter, multi);
    TargetsExactly(d, filter, multi);
    TargetsAreLive(d, filter, multi);
    AllChanged(d, targets, change);
    if Changed(targets, change).Some? && IdsKept(d, ids, change) {
      TargetsRewritten(d, targets, change);
    }
  }

  lemma AllChanged(d: Documents, targets: seq<Doc>, change: Doc -> Option<Doc>)
    requires forall doc :: doc in targets ==> doc.id in d.live && doc.fields == d.live[doc.id]
    ensures Changed(targets, change).Some? <==> forall id :: id in IdsOf(targets) ==> change(Doc(id, d.live[id])).Some?
  {
    hide Changed;
    if Changed(targets, change).Some? {
      ChangedAt(targets, change);
    } else {
      var i := WhereNone(targets, change);
      assert targets[i] in targets && targets[i] == Doc(targets[i].id, d.live[targets[i].id]);
    }
  }

  lemma {:induction false} WhereNone(docs: seq<Doc>, change: Doc -> Option<Doc>) returns (i: nat)
    requires Changed(docs, change).None?
    ensures i < |docs| && change(docs[i]).None?
  {
    i := |docs| - 1;
    if change(docs[i]).Some? {
      i := WhereNone(docs[..i], change);
    }
  }

  lemma TargetsRewritten(d: Documents, targets: seq<Doc>, change: Doc -> Option<Doc>)
    requires Orderly(d) && Changed(targets, change).Some? && IdsKept(d, IdsOf(targets), change)
    requires forall i, j :: 0 <= i < j < |targets| ==> targets[i].id != targets[j].id
    requires forall doc :: doc in targets ==> doc.id in d.live && doc.fields == d.live[doc.id]
    ensures Rewritten(d, PutAll(d, Changed(targets, change).value), IdsOf(targets), change)
  {
    hide Changed, PutAll, KeepsIds;
    var changed := Changed(targets, change).value;
    ChangedKeepIds(d, targets, change);
    PutAllOrder(d, changed);
    forall id
      ensures id in PutAll(d, changed).live <==> id in d.live
      ensures id in d.live ==>
                if id in IdsOf(targets) then change(Doc(id, d.live[id])) == Some(Doc(id, PutAll(d, changed).live[id]))
                else PutAll(d, changed).live[id] == d.live[id]
    {
      UpdateIsPointwise(d, targets, change, id);
      if id in d.live {
        OneRewritten(d, targets, change, id, PutAll(d, changed));
      }
    }
  }

  lemma ChangedKeepIds(d: Documents, targets: seq<Doc>, change: Doc -> Option<Doc>)
    requires Orderly(d) && Changed(targets, change).Some? && IdsKept(d, IdsOf(targets), change)
    requires forall doc :: doc in targets ==> doc.id in d.live && doc.fields == d.live[doc.id]
    ensures KeepsIds(targets, change) && forall doc :: doc in Changed(targets, change).value ==> doc.id in d.order
    ensures forall i :: 0 <= i < |targets| ==> targets[i].id in d.live
  {
    hide Changed;
    ChangedAt(targets, change);
    forall i | 0 <= i < |targets|
      ensures change(targets[i]).value.id == targets[i].id && targets[i].id in d.order
    {
      assert targets[i] in targets && targets[i] == Doc(targets[i].id, d.live[targets[i].id]);
    }
  }

  lemma OneRewritten(d: Documents, targets: seq<Doc>, change: Doc -> Option<Doc>, id: int, after: Documents)
    requires id in d.live && id in after.live
    requires forall doc :: doc in targets ==> doc.id in d.live && doc.fields == d.live[doc.id]
    requires forall i :: 0 <= i < |targets| ==>
               targets[i].id in after.live && change(targets[i]) == Some(Doc(targets[i].id, after.live[targets[i].id]))
    requires (forall i :: 0 <= i < |targets| ==> targets[i].id != id) ==> after.live[id] == d.live[id]
    ensures if id in IdsOf(targets) then change(Doc(id, d.live[id])) == Some(Doc(id, after.live[id]))
            else after.live[id] == d.live[id]
  {
    if id in IdsOf(targets) {
      var doc :| doc in targets && doc.id == id;
      var i :| 0 <= i < |targets| && targets[i] == doc;
      assert doc == Doc(id, d.live[id]);
    } else {
      assert forall i :: 0 <= i < |targets| ==> targets[i] in targets;
    }
  }
}
