/** Rebuilding a table from its directory after a restart. */
module Recovery {
  import opened Table
  import opened DatasetEngine
  import opened SegmentStore
  import opened DirectoryOrder
  import opened Sealing

  /** AddRecoveredSegment accepts a readable segment whose columns have the table's types. */
  predicate Loads(disk: Disk, i: nat, types: seq<FieldType>) {
    i in disk && disk[i].Good? && MatchesSchema(disk[i].segment, types)
  }

  /** The segments that recovery loads, in the order in which it meets them. */
  function Recovered(disk: Disk, order: seq<nat>, types: seq<FieldType>): seq<Segment> {
    if order == [] then []
    else (if Loads(disk, order[0], types) then [disk[order[0]].segment] else []) +
         Recovered(disk, order[1..], types)
  }

  /** What a writer puts into a file. */
  ghost predicate ReadableFilesAreSegments(disk: Disk) {
    forall i :: i in disk && disk[i].Good? ==> ValidSegment(disk[i].segment) && disk[i].segment.rowCount > 0
  }

  /**
   RecoverDatabaseAtPath for one table. `order` lists the files by name. A
   file that is unreadable or has another schema is deleted, and the cache
   limits are enforced after every segment.
   */
  method Recover(types: seq<FieldType>, capacity: nat, hasVectorField: bool,
                 segmentCacheMax: nat, segmentCacheBytes: nat, policy: Policy, disk: Disk, order: seq<nat>)
      returns (state: DatasetState)
    requires capacity > 0 && ReadableFilesAreSegments(disk)
    requires forall i :: i in order ==> i in disk
    ensures fresh(state) && fresh(state.dataset)
    ensures state.ValidWindow() && state.Clean() && state.WithinLimits()
    ensures state.Sealed == Recovered(disk, order, types)
    ensures state.dataset.Aligned() && state.dataset.ActiveRows() == []
    ensures state.disk == WithoutUnreadable(disk, order, types) && state.dataset.types == types
    ensures forall i :: i in state.disk <==>
                          i in disk && (i in order ==> disk[i].Good? && MatchesSchema(disk[i].segment, types))
    ensures state.recovered == |state.Sealed| && state.policy == policy
    ensures forall s :: Stores(disk, s) && AllMatch(s, types) && IsListing(order, disk.Keys) && |s| <= 10 ==>
              state.Valid() && state.Sealed == s
  {
    hide TotalBytes, SegmentBytes, Recovered, WithoutUnreadable, AllRows, RowsOf, Stores, IsListing, DatasetState.Valid,
         DatasetState.ValidWindow;
    var dataset := new Dataset(types, capacity);
    state := new DatasetState(dataset, hasVectorField, segmentCacheMax, segmentCacheBytes, policy, disk);
    NothingCached(state);
    NothingRecovered(disk, order, types);
    for k := 0 to |order|
      invariant state.dataset == dataset && fresh(state) && fresh(dataset)
      invariant state.ValidWindow() && state.Clean() && state.WithinLimits()
      invariant dataset.types == types && dataset.active == EmptyColumns(types) && dataset.capacity == capacity
      invariant state.Sealed + Recovered(disk, order[k..], types) == Recovered(disk, order, types)
      invariant state.disk == WithoutUnreadable(disk, order[..k], types)
      invariant state.recovered == |state.Sealed| && state.policy == policy
    {
      var index := order[k];
      RecoveredStep(disk, order, k, types);
      TakeFile(state, index, disk[index]);
    }
    assert order[..|order|] == order;
    FilesLeft(disk, order, types);
    RestoredIsValid(state, disk, order);
  }

  /** The files that the reader has not deleted after it met the files `seen`. */
  function WithoutUnreadable(disk: Disk, seen: seq<nat>, types: seq<FieldType>): Disk {
    map i | i in disk && (i in seen ==> Loads(disk, i, types)) :: disk[i]
  }

  lemma FilesLeft(disk: Disk, order: seq<nat>, types: seq<FieldType>)
    ensures forall i :: i in WithoutUnreadable(disk, order, types) <==>
                          i in disk && (i in order ==> disk[i].Good? && MatchesSchema(disk[i].segment, types))
  {
  }

  lemma RecoveredStep(disk: Disk, order: seq<nat>, k: nat, types: seq<FieldType>)
    requires k < |order|
    ensures Recovered(disk, order[k..], types) ==
            (if Loads(disk, order[k], types) then [disk[order[k]].segment] else []) +
            Recovered(disk, order[k + 1..], types)
    ensures order[k] in disk ==>
              WithoutUnreadable(disk, order[..k + 1], types) ==
              if Loads(disk, order[k], types) then WithoutUnreadable(disk, order[..k], types)
              else WithoutUnreadable(disk, order[..k], types) - {order[k]}
  {
    assert order[k..][1..] == order[k + 1..];
    assert order[..k + 1] == order[..k] + [order[k]];
  }

  lemma NothingRecovered(disk: Disk, order: seq<nat>, types: seq<FieldType>)
    ensures Recovered(disk, order[|order|..], types) == [] && Recovered(disk, order[0..], types) == Recovered(disk, order, types)
    ensures WithoutUnreadable(disk, order[..0], types) == disk
  {
    assert order[0..] == order;
  }

  /** One turn of the loop: a file is loaded or deleted. */
  method TakeFile(state: DatasetState, index: nat, file: File)
    requires state.ValidWindow() && state.Clean() && state.WithinLimits() && state.recovered == |state.Sealed|
    requires file.Good? ==> ValidSegment(file.segment) && file.segment.rowCount > 0
    modifies state`Sealed, state`persistedSegments, state`segmentBaseIndex, state`cachedBytes, state`recovered, state`disk,
             state.dataset`segments
    ensures state.ValidWindow() && state.Clean() && state.WithinLimits() && state.recovered == |state.Sealed|
    ensures var loads := file.Good? && MatchesSchema(file.segment, state.dataset.types);
            && state.Sealed == old(state.Sealed) + (if loads then [file.segment] else [])
            && state.disk == if loads then old(state.disk) else old(state.disk) - {index}
  {
    hide TotalBytes, SegmentBytes, MatchesSchema;
    if file.Torn? || !MatchesSchema(file.segment, state.dataset.types) {
      state.disk := state.disk - {index};
    } else {
      LoadSegment(state, file.segment);
    }
  }

  /** One recovered segment: into the window, counted, and the limits enforced. */
  method LoadSegment(state: DatasetState, segment: Segment)
    requires state.ValidWindow() && state.Clean()
    requires ValidSegment(segment) && segment.rowCount > 0 && MatchesSchema(segment, state.dataset.types)
    modifies state`Sealed, state`persistedSegments, state`segmentBaseIndex, state`cachedBytes, state`recovered,
             state.dataset`segments
    ensures state.ValidWindow() && state.Clean() && state.WithinLimits()
    ensures state.Sealed == old(state.Sealed) + [segment] && state.recovered == |state.Sealed|
  {
    hide TotalBytes, SegmentBytes, DatasetState.ValidWindow;
    AddRecovered(state, segment);
    state.EnforceSegmentCacheLimits();
  }

  /** AddRecoveredSegment and the two counters. */
  method AddRecovered(state: DatasetState, segment: Segment)
    requires state.ValidWindow() && state.Clean()
    requires ValidSegment(segment) && segment.rowCount > 0 && MatchesSchema(segment, state.dataset.types)
    modifies state`Sealed, state`persistedSegments, state`cachedBytes, state`recovered, state.dataset`segments
    ensures state.ValidWindow() && state.Clean() && state.Window()
    ensures state.Sealed == old(state.Sealed) + [segment] && state.recovered == |state.Sealed|
  {
    hide TotalBytes, SegmentBytes;
    ghost var base, window := state.segmentBaseIndex, state.dataset.segments;
    CachedTail(old(state.Sealed), base, window, segment);
    state.dataset.segments := state.dataset.segments + [segment];
    state.Sealed := state.Sealed + [segment];
    state.persistedSegments := state.persistedSegments + 1;
    state.recovered := state.persistedSegments;
    state.cachedBytes := state.cachedBytes + SegmentBytes(segment);
  }

  lemma CachedTail(sealed: seq<Segment>, base: nat, window: seq<Segment>, segment: Segment)
    requires base <= |sealed| && window == sealed[base..]
    ensures sealed[base..|sealed|] == window
    ensures (sealed + [segment])[base..] == (sealed + [segment])[base..|sealed| + 1] == window + [segment]
    ensures TotalBytes(window + [segment]) == TotalBytes(window) + SegmentBytes(segment)
  {
    hide TotalBytes, SegmentBytes;
    TotalBytesStep(window + [segment], |window|);
    assert (window + [segment])[..|window|] == window && (window + [segment])[..|window| + 1] == window + [segment];
  }

  lemma NothingCached(state: DatasetState)
    requires state.ValidWindow() && state.Sealed == []
    ensures state.WithinLimits()
  {
    NoBytes();
  }

  // ---------- What a restart restores ----------

  function Pick(s: seq<Segment>, ks: seq<nat>): (r: seq<Segment>)
    requires forall k :: k in ks ==> k < |s|
    ensures |r| == |ks|
  {
    seq(|ks|, j requires 0 <= j < |ks| => assert ks[j] in ks; s[ks[j]])
  }

  lemma PickConcat(s: seq<Segment>, a: seq<nat>, b: seq<nat>)
    requires forall k :: k in a + b ==> k < |s|
    ensures (forall k :: k in a ==> k < |s|) && (forall k :: k in b ==> k < |s|)
    ensures Pick(s, a + b) == Pick(s, a) + Pick(s, b)
  {
    assert forall k :: k in a || k in b ==> k in a + b;
  }

  lemma LoadsStored(disk: Disk, s: seq<Segment>, i: nat, types: seq<FieldType>)
    requires Stores(disk, s) && AllMatch(s, types)
    ensures Loads(disk, i, types) <==> i < |s|
    ensures i < |s| ==> disk[i] == Good(s[i])
  {
  }

  lemma {:induction false} RecoveredPicks(disk: Disk, s: seq<Segment>, order: seq<nat>, types: seq<FieldType>)
    requires Stores(disk, s) && AllMatch(s, types)
    ensures Recovered(disk, order, types) == Pick(s, Below(order, |s|))
  {
    hide Stores, AllMatch, Loads;
    if order != [] {
      RecoveredPicks(disk, s, order[1..], types);
      LoadsStored(disk, s, order[0], types);
      var first := if order[0] < |s| then [order[0]] else [];
      PickConcat(s, first, Below(order[1..], |s|));
      assert Pick(s, first) == if order[0] < |s| then [s[order[0]]] else [];
    }
  }

  /**
   Recovery meets the files in the order of their numbers exactly when there
   are at most ten readable ones. It then loads what was stored, and the files
   that it leaves are again what the store needs.
   */
  lemma RestartRestores(disk: Disk, s: seq<Segment>, order: seq<nat>, types: seq<FieldType>)
    requires Stores(disk, s) && AllMatch(s, types) && IsListing(order, disk.Keys)
    ensures Recovered(disk, order, types) == Pick(s, Below(order, |s|))
    ensures Below(order, |s|) == Iota(|s|) <==> |s| <= 10
    ensures |s| <= 10 ==> Recovered(disk, order, types) == s && Stores(WithoutUnreadable(disk, order, types), s)
  {
    hide Stores, WithoutUnreadable, Recovered, IsListing, Below, AllMatch;
    RecoveredPicks(disk, s, order, types);
    StoredFiles(disk, s);
    ListingIsNumeric(order, disk.Keys, |s|);
    FilesStay(disk, s, order, types);
    if |s| <= 10 {
      assert Pick(s, Iota(|s|)) == s;
    }
  }

  lemma StoredFiles(disk: Disk, s: seq<Segment>)
    requires Stores(disk, s)
    ensures forall i: nat :: i < |s| ==> i in disk.Keys
  {
  }

  /** A restart that meets at most ten files re-establishes the invariant of the store. */
  lemma RestoredIsValid(state: DatasetState, disk: Disk, order: seq<nat>)
    requires state.ValidWindow() && state.Clean()
    requires state.Sealed == Recovered(disk, order, state.dataset.types) && state.disk == WithoutUnreadable(disk, order, state.dataset.types)
    ensures forall s :: Stores(disk, s) && AllMatch(s, state.dataset.types) && IsListing(order, disk.Keys) && |s| <= 10 ==>
              state.Valid() && state.Sealed == s
  {
    hide TotalBytes, Recovered, WithoutUnreadable, IsListing;
    forall s | Stores(disk, s) && AllMatch(s, state.dataset.types) && IsListing(order, disk.Keys) && |s| <= 10
      ensures state.Valid() && state.Sealed == s
    {
      RestartRestores(disk, s, order, state.dataset.types);
      assert s[..|s|] == s;
    }
  }

  /** However many files there are, recovery loads each stored segment exactly once. */
  lemma RestartPermutes(disk: Disk, s: seq<Segment>, order: seq<nat>, types: seq<FieldType>)
    requires Stores(disk, s) && AllMatch(s, types) && IsListing(order, disk.Keys)
    ensures var ks := Below(order, |s|);
            && Recovered(disk, order, types) == Pick(s, ks)
            && |ks| == |s| && (forall i: nat :: i in ks <==> i < |s|)
            && forall i, j :: 0 <= i < j < |ks| ==> ks[i] != ks[j]
  {
    RecoveredPicks(disk, s, order, types);
    ListedOnce(order, disk.Keys, |s|);
  }

  /** A file that a restart does not delete. */
  lemma FilesStay(disk: Disk, s: seq<Segment>, order: seq<nat>, types: seq<FieldType>)
    requires Stores(disk, s) && AllMatch(s, types)
    ensures Stores(WithoutUnreadable(disk, order, types), s)
  {
  }

  /**
   What an enumeration shows after a restart: the segments that the cache
   limits evicted are read from their files, and so in the order of their
   numbers, while the window has the order in which they were loaded.
   */
  lemma EnumerationAfterRestart(state: DatasetState, disk: Disk, s: seq<Segment>, order: seq<nat>, visited: seq<Segment>)
    requires state.ValidWindow() && state.Clean() && state.dataset.Aligned()
    requires state.Sealed == Recovered(disk, order, state.dataset.types) && state.disk == WithoutUnreadable(disk, order, state.dataset.types)
    requires Stores(disk, s) && AllMatch(s, state.dataset.types) && NonEmptySegments(s) && IsListing(order, disk.Keys)
    requires Visits(state, visited)
    ensures state.segmentBaseIndex <= |s| == |state.Sealed|
    ensures visited == s[..state.segmentBaseIndex] + state.Sealed[state.segmentBaseIndex..] + state.ActiveSegments()
  {
    hide Recovered, WithoutUnreadable, IsListing, TotalBytes, AllRows;
    RestartPermutes(disk, s, order, state.dataset.types);
    FilesStay(disk, s, order, state.dataset.types);
    var base := state.segmentBaseIndex;
    var shown := s[..base] + state.Sealed[base..];
    forall idx: nat | idx < |shown|
      ensures state.SegmentAt(idx) == Good(shown[idx])
    {
    }
    VisitedRows(state, shown, visited);
  }

  /**
   Eleven files. Recovery loads the last sealed segment as the third one. When
   the cache limits evict three to ten segments, an enumeration shows one segment
   twice and the last sealed one not at all.
   */
  lemma ElevenFilesExample(state: DatasetState, disk: Disk, s: seq<Segment>, order: seq<nat>, visited: seq<Segment>)
    requires state.ValidWindow() && state.Clean() && state.dataset.Aligned()
    requires state.Sealed == Recovered(disk, order, state.dataset.types) && state.disk == WithoutUnreadable(disk, order, state.dataset.types)
    requires Stores(disk, s) && AllMatch(s, state.dataset.types) && NonEmptySegments(s) && IsListing(order, disk.Keys)
    requires |s| == 11 && Visits(state, visited)
    ensures state.Sealed == s[..2] + [s[10]] + s[2..10]
    ensures var base := state.segmentBaseIndex;
            3 <= base <= 10 ==> visited == s[..base] + s[base - 1..10] + state.ActiveSegments()
  {
    hide Recovered, WithoutUnreadable, IsListing, TotalBytes, AllRows, Below, DatasetState.ValidWindow, Visits;
    EnumerationAfterRestart(state, disk, s, order, visited);
    RestartPermutes(disk, s, order, state.dataset.types);
    ElevenFiles(order, disk.Keys);
    PickEleven(s, state.segmentBaseIndex);
  }

  lemma PickEleven(s: seq<Segment>, base: nat)
    requires |s| == 11
    ensures var picked := Pick(s, [0, 1, 10, 2, 3, 4, 5, 6, 7, 8, 9]);
            picked == s[..2] + [s[10]] + s[2..10] && (3 <= base <= 10 ==> picked[base..] == s[base - 1..10])
  {
  }

  /**
   The files hold the first `k` sealed segments, and the counters are not past
   them: after the write of file `k - 1`, before or after the counters move, or
   while file `k` is being written. A restart has the rows of these segments, a
   prefix of all rows.
   */
  lemma RestartKeepsPrefix(s: DatasetState, disk: Disk, order: seq<nat>, k: nat)
    requires s.ValidWindow() && s.dataset.Aligned() && s.persistedSegments <= k <= |s.Sealed| && k <= 10
    requires Stores(disk, s.Sealed[..k]) && IsListing(order, disk.Keys)
    ensures var recovered := Recovered(disk, order, s.dataset.types);
            && recovered == s.Sealed[..k]
            && NonEmptySegments(recovered) && AllMatch(recovered, s.dataset.types)
            && Stores(WithoutUnreadable(disk, order, s.dataset.types), recovered)
            && AllRows(s.Sealed[..s.persistedSegments]) <= AllRows(recovered) <= s.TableRows()
  {
    hide AllRows, Recovered, WithoutUnreadable, Stores, IsListing, TotalBytes;
    RestartRestores(disk, s.Sealed[..k], order, s.dataset.types);
    PrefixRows(s.Sealed, s.persistedSegments, k, s.dataset.ActiveRows());
  }

  lemma PrefixRows(sealed: seq<Segment>, p: nat, k: nat, rows: seq<Row>)
    requires p <= k <= |sealed| && forall s :: s in sealed ==> ValidSegment(s)
    ensures AllRows(sealed[..p]) <= AllRows(sealed[..k]) <= AllRows(sealed) + rows
  {
    hide AllRows, ValidSegment;
    MoreSegments(sealed[..k], sealed);
    MoreSegments(sealed[..p], sealed[..k]);
  }

  lemma MoreSegments(front: seq<Segment>, all: seq<Segment>)
    requires front <= all && forall s :: s in all ==> ValidSegment(s)
    ensures forall s :: s in front ==> ValidSegment(s)
    ensures AllRows(front) <= AllRows(all)
  {
    hide AllRows, ValidSegment;
    var rest := all[|front|..];
    assert all == front + rest;
    AllRowsConcat(front, rest);
  }

  /**
   A stop in any valid state, and so between any two steps of an append,
   whatever its writes came to: the restarted table has the rows of the
   readable files, which include every segment that counts as persisted.
   */
  lemma StopKeepsPrefix(s: DatasetState, order: seq<nat>)
    requires s.Valid() && s.dataset.Aligned() && s.ReadableFiles() <= 10
    requires IsListing(order, s.disk.Keys)
    ensures var recovered := Recovered(s.disk, order, s.dataset.types);
            && recovered == s.Sealed[..s.ReadableFiles()]
            && NonEmptySegments(recovered) && AllMatch(recovered, s.dataset.types)
            && Stores(WithoutUnreadable(s.disk, order, s.dataset.types), recovered)
            && AllRows(s.Sealed[..s.persistedSegments]) <= AllRows(recovered) <= s.TableRows()
  {
    hide AllRows, Recovered, WithoutUnreadable, IsListing, TotalBytes;
    RestartKeepsPrefix(s, s.disk, order, s.ReadableFiles());
  }

  /**
   After `n` flushes in a row the restarted table has the active rows `n` times,
   so that exactly one flush, or no active row, keeps the table as it was. The
   counter of the last flush need not have moved.
   */
  lemma RestartAfterFlushes(s: DatasetState, order: seq<nat>, n: nat)
    requires s.FlushedFiles(n) && s.dataset.ActiveRowCount() > 0 && |s.Sealed| + n <= 10
    requires IsListing(order, s.disk.Keys)
    ensures var recovered := Recovered(s.disk, order, s.dataset.types);
            && recovered == s.Sealed + Copies(s.ActiveSegment(), n)
            && NonEmptySegments(recovered) && AllRows(recovered) == AllRows(s.Sealed) + Repeated(s.dataset.ActiveRows(), n)
            && (AllRows(recovered) == s.TableRows() <==> n == 1)
  {
    hide AllRows, Recovered, WithoutUnreadable, Below, FileName, Before, TotalBytes;
    var copies := Copies(s.ActiveSegment(), n);
    RestartRestores(s.disk, s.Sealed + copies, order, s.dataset.types);
    AllRowsConcat(s.Sealed, copies);
    CopiesRows(s.ActiveSegment(), n);
    RepeatedOnce(s.dataset.ActiveRows(), n);
  }

  lemma RepeatedOnce(rows: seq<Row>, n: nat)
    requires rows != []
    ensures Repeated(rows, n) == rows <==> n == 1
  {
    if n == 0 {
      assert Repeated(rows, n) == [];
    } else {
      RepeatedLength(rows, n - 1);
      assert Repeated(rows, n) == Repeated(rows, n - 1) + rows;
    }
  }

  /**
   One flush in the middle of a run, and then an append that seals segments.
   The file of the first new segment is already there and holds only the rows of
   the flush, so that a restart loses the other rows of that segment.
   */
  lemma FlushThenSealLoses(sealed: seq<Segment>, x: Segment, more: seq<Segment>, active: seq<Row>, added: seq<Row>,
                           disk: Disk, order: seq<nat>, types: seq<FieldType>)
    requires NonEmptySegments(sealed) && NonEmptySegments(more) && more != []
    requires AllMatch(sealed, types) && AllMatch(more, types)
    requires ValidSegment(x) && x.rowCount > 0 && MatchesSchema(x, types)
    requires AllRows(more) + active == SegmentRows(x) + added && x.rowCount < more[0].rowCount
    requires Stores(disk, sealed + Copies(x, 1)) && |sealed| + |more| <= 10
    requires IsListing(order, WithFiles(disk, sealed + more, |sealed| + 1, |sealed + more|).Keys)
    ensures var recovered := Recovered(WithFiles(disk, sealed + more, |sealed| + 1, |sealed + more|), order, types);
            var lost := SegmentRows(more[0])[x.rowCount..];
            && recovered == sealed + [x] + more[1..] && NonEmptySegments(recovered)
            && lost != [] && SegmentRows(more[0]) == SegmentRows(x) + lost
            && AllRows(recovered) == AllRows(sealed) + SegmentRows(x) + AllRows(more[1..])
            && AllRows(sealed + more) == AllRows(sealed) + SegmentRows(x) + lost + AllRows(more[1..])
  {
    hide AllRows, Recovered, WithoutUnreadable, IsListing, Stores, WithFiles, SegmentRows;
    var files := WithFiles(disk, sealed + more, |sealed| + 1, |sealed + more|);
    var recovered := sealed + [x] + more[1..];
    FilesAfterFlushes(disk, sealed, x, 1, more);
    assert sealed + Copies(x, 1) + more[Min(1, |more|)..] == recovered;
    RestartRestores(files, recovered, order, types);
    AllRowsConcat(sealed, [x]);
    AllRowsConcat(sealed + [x], more[1..]);
    AllRowsSingle(x);
    AllRowsConcat(sealed, more);
    FirstSegmentRows(more);
    var first := SegmentRows(more[0]);
    assert first[..x.rowCount] == (AllRows(more) + active)[..x.rowCount] == SegmentRows(x);
    assert first == first[..x.rowCount] + first[x.rowCount..];
    assert AllRows(sealed) + (SegmentRows(x) + first[x.rowCount..] + AllRows(more[1..])) ==
           AllRows(sealed) + SegmentRows(x) + first[x.rowCount..] + AllRows(more[1..]);
  }

  lemma FirstSegmentRows(s: seq<Segment>)
    requires NonEmptySegments(s) && s != []
    ensures AllRows(s) == SegmentRows(s[0]) + AllRows(s[1..])
  {
  }
}
