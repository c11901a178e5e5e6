/**
 The server's view of one table: a window of sealed segments in memory, the
 files on disk, and the counters that tie the two together.
 */
module SegmentStore {
  import opened Table
  import opened DatasetEngine
  import opened Sealing

  /** A file is readable, or it is the remains of a write that did not complete. */
  datatype File = Good(segment: Segment) | Torn

  type Disk = map<nat, File>

  /** Files 0 to |s| - 1 hold the segments of `s`, and no other file is readable. */
  ghost predicate Stores(disk: Disk, s: seq<Segment>) {
    && (forall i :: 0 <= i < |s| ==> i in disk && disk[i] == Good(s[i]))
    && (forall i :: i in disk && i >= |s| ==> disk[i].Torn?)
  }

  /** What the attempt to write a new file comes to: no file, an unreadable one, one that was not synced, success. */
  datatype WriteOutcome = NotCreated | Broken | NotSynced | Written

  /** SegmentWriter::Write refuses to touch a file that exists, whatever it holds. */
  function AfterWrite(disk: Disk, index: nat, segment: Segment, outcome: WriteOutcome): Disk {
    if index in disk then disk
    else match outcome
      case NotCreated => disk
      case Broken => disk[index := Torn]
      case NotSynced => disk[index := Good(segment)]
      case Written => disk[index := Good(segment)]
  }

  /** The files of `disk`, with the segments [from, to) of `s` in new files. */
  function WithFiles(disk: Disk, s: seq<Segment>, from: nat, to: nat): Disk
    requires to <= |s|
  {
    disk + map i | from <= i < to :: Good(s[i])
  }

  function Min(a: nat, b: nat): nat { if a < b then a else b }

  /** `n` copies of one segment. */
  function Copies(s: Segment, n: nat): (r: seq<Segment>)
    ensures |r| == n && forall i :: 0 <= i < n ==> r[i] == s
  {
    seq(n, i => s)
  }

  function Repeated(rows: seq<Row>, n: nat): (r: seq<Row>)
    ensures |r| == n * |rows|
  {
    if n == 0 then [] else Repeated(rows, n - 1) + rows
  }

  ghost predicate NonEmptySegments(s: seq<Segment>) {
    forall i :: 0 <= i < |s| ==> ValidSegment(s[i]) && s[i].rowCount > 0
  }

  ghost predicate AllMatch(s: seq<Segment>, types: seq<FieldType>) {
    forall i :: 0 <= i < |s| ==> MatchesSchema(s[i], types)
  }

  function SaturatingSubtract(a: nat, b: nat): nat { if b > a then 0 else a - b }

  class DatasetState {
    const dataset: Dataset
    const hasVectorField: bool
    const segmentCacheMax: nat    // 0 means no limit
    const segmentCacheBytes: nat  // 0 means no limit
    const policy: Policy          // how columns are compressed when a segment is sealed
    var persistedSegments: nat
    var segmentBaseIndex: nat
    var cachedBytes: nat
    var disk: Disk
    /** The segments before this one were read from files when the server started. */
    var recovered: nat
    /** Every segment ever sealed or recovered, first to last. */
    ghost var Sealed: seq<Segment>

    /** The segments in memory are the last sealed ones. */
    ghost predicate Window()
      reads this, dataset
    {
      && dataset.Valid()
      && NonEmptySegments(Sealed) && AllMatch(Sealed, dataset.types)
      && segmentBaseIndex <= persistedSegments
      && |Sealed| == segmentBaseIndex + |dataset.segments|
      && dataset.segments == Sealed[segmentBaseIndex..]
    }

    /** The window together with the counters. */
    ghost predicate ValidWindow()
      reads this, dataset
    {
      && Window()
      && persistedSegments <= |Sealed|
      && cachedBytes == TotalBytes(Sealed[segmentBaseIndex..persistedSegments])
    }

    /** How many files are readable: the next file may be complete although it does not count as persisted. */
    function ReadableFiles(): (k: nat)
      reads this
      ensures persistedSegments <= k <= persistedSegments + 1
    {
      if persistedSegments in disk && disk[persistedSegments].Good? then persistedSegments + 1 else persistedSegments
    }

    /** The window, and on disk the sealed segments up to the next one to be persisted. */
    ghost predicate Valid()
      reads this, dataset
    {
      ValidWindow() && ReadableFiles() <= |Sealed| && Stores(disk, Sealed[..ReadableFiles()])
    }

    /** Every sealed segment is on disk. */
    ghost predicate Clean()
      reads this
    {
      persistedSegments == |Sealed|
    }

    ghost predicate WithinLimits()
      reads this, dataset
    {
      hasVectorField ||
      ((segmentCacheMax > 0 ==> |dataset.segments| <= segmentCacheMax) &&
       (segmentCacheBytes > 0 ==> cachedBytes <= segmentCacheBytes))
    }

    /** Such a window is within the limits. */
    predicate Fits(window: seq<Segment>) {
      && (segmentCacheMax > 0 ==> |window| <= segmentCacheMax)
      && (segmentCacheBytes > 0 ==> TotalBytes(window) <= segmentCacheBytes)
    }

    /** All the rows of the table, in the order of their append. */
    ghost function TableRows(): seq<Row>
      requires NonEmptySegments(Sealed) && dataset.Aligned()
      reads this, dataset
    {
      AllRows(Sealed) + dataset.ActiveRows()
    }

    constructor (dataset: Dataset, hasVectorField: bool, segmentCacheMax: nat, segmentCacheBytes: nat, policy: Policy,
                 disk: Disk)
      requires dataset.Valid() && dataset.segments == []
      ensures ValidWindow() && Clean() && Sealed == []
      ensures this.dataset == dataset && this.disk == disk && this.hasVectorField == hasVectorField
      ensures this.policy == policy && recovered == 0
      ensures this.segmentCacheMax == segmentCacheMax && this.segmentCacheBytes == segmentCacheBytes
    {
      this.dataset, this.hasVectorField, this.disk := dataset, hasVectorField, disk;
      this.segmentCacheMax, this.segmentCacheBytes, this.policy := segmentCacheMax, segmentCacheBytes, policy;
      persistedSegments, segmentBaseIndex, cachedBytes, recovered, Sealed := 0, 0, 0, 0, [];
    }

    method DropCachedSegments(dropCount: nat)
      requires Window() && persistedSegments >= |Sealed|
      modifies this`segmentBaseIndex, this`cachedBytes, dataset`segments
      ensures Window()
      ensures var n := if dropCount > |old(dataset.segments)| then |old(dataset.segments)| else dropCount;
              && segmentBaseIndex == old(segmentBaseIndex) + n
              && dataset.segments == old(dataset.segments)[n..]
              && (old(ValidWindow() && Clean()) ==> cachedBytes + TotalBytes(old(dataset.segments)[..n]) == old(cachedBytes))
      ensures old(ValidWindow() && Clean()) ==> ValidWindow() && Clean()
    {
      hide TotalBytes, SegmentBytes;
      if dropCount == 0 {
        NoBytes();
        return;
      }
      var capped := if dropCount > |dataset.segments| then |dataset.segments| else dropCount;
      var reclaimed := SumBytes(capped);
      ghost var segments, exact := dataset.segments, ValidWindow() && Clean();
      assert segments == segments[..capped] + segments[capped..];
      TotalBytesConcat(segments[..capped], segments[capped..]);
      assert exact ==> Sealed[segmentBaseIndex..persistedSegments] == segments;
      assert exact ==> reclaimed <= cachedBytes;  // so the saturating subtraction below is exact
      dataset.segments := dataset.segments[capped..];
      segmentBaseIndex := segmentBaseIndex + capped;
      cachedBytes := SaturatingSubtract(cachedBytes, reclaimed);
      assert exact ==> Sealed[segmentBaseIndex..persistedSegments] == segments[capped..];
    }

    method SumBytes(capped: nat) returns (reclaimed: nat)
      requires capped <= |dataset.segments|
      ensures reclaimed == TotalBytes(dataset.segments[..capped])
    {
      reclaimed := 0;
      NoBytes();
      for i := 0 to capped
        invariant reclaimed == TotalBytes(dataset.segments[..i])
      {
        TotalBytesStep(dataset.segments, i);
        reclaimed := reclaimed + SegmentBytes(dataset.segments[i]);
      }
    }

    /** Every smaller number of segments to drop would leave too much in the window. */
    predicate AllNeeded(window: seq<Segment>, dropped: nat)
      requires dropped <= |window|
    {
      forall k :: 0 <= k < dropped ==> !Fits(window[k..])
    }

    lemma NeedsOneMore(window: seq<Segment>, dropped: nat)
      requires dropped < |window| && AllNeeded(window, dropped) && !Fits(window[dropped..])
      ensures AllNeeded(window, dropped + 1)
    {
      hide Fits;
    }

    lemma ExcessNeeded(window: seq<Segment>, dropped: nat)
      requires dropped <= |window| && (dropped > 0 ==> segmentCacheMax > 0 && |window| - dropped >= segmentCacheMax)
      ensures AllNeeded(window, dropped)
    {
      hide TotalBytes;
    }

    lemma CachedWindow()
      requires ValidWindow() && Clean()
      ensures cachedBytes == TotalBytes(dataset.segments)
    {
      assert Sealed[segmentBaseIndex..persistedSegments] == dataset.segments;
    }

    /** Evicts the oldest segments, as many as the limits ask for and no more. */
    method EnforceSegmentCacheLimits()
      requires Window() && persistedSegments >= |Sealed|
      modifies this`segmentBaseIndex, this`cachedBytes, dataset`segments
      ensures Window() && segmentBaseIndex >= old(segmentBaseIndex)
      ensures old(ValidWindow() && Clean()) ==> ValidWindow() && Clean() && WithinLimits()
      ensures hasVectorField ==> segmentBaseIndex == old(segmentBaseIndex)
      ensures segmentBaseIndex <= old(segmentBaseIndex) + |old(dataset.segments)| &&
              dataset.segments == old(dataset.segments)[segmentBaseIndex - old(segmentBaseIndex)..]
      ensures old(ValidWindow() && Clean()) ==>
                AllNeeded(old(dataset.segments), segmentBaseIndex - old(segmentBaseIndex))
    {
      hide TotalBytes, AllNeeded, Fits, ValidWindow;
      ghost var window := dataset.segments;
      ExcessNeeded(window, 0);
      if hasVectorField {
        return;
      }
      if segmentCacheMax > 0 && |dataset.segments| > segmentCacheMax {
        var drop := |dataset.segments| - segmentCacheMax;
        DropCachedSegments(drop);
        ExcessNeeded(window, drop);
      }
      if segmentCacheBytes > 0 && cachedBytes > segmentCacheBytes {
        EvictByBytes(window, old(segmentBaseIndex), old(ValidWindow() && Clean()));
      }
    }

    /** The loop for the limit on bytes. */
    method EvictByBytes(ghost window: seq<Segment>, ghost base: nat, ghost exact: bool)
      requires Window() && persistedSegments >= |Sealed| && segmentCacheBytes > 0 && !hasVectorField
      requires base <= segmentBaseIndex <= base + |window| && dataset.segments == window[segmentBaseIndex - base..]
      requires segmentCacheMax > 0 ==> |dataset.segments| <= segmentCacheMax
      requires exact ==> ValidWindow() && Clean() && AllNeeded(window, segmentBaseIndex - base)
      modifies this`segmentBaseIndex, this`cachedBytes, dataset`segments
      ensures Window() && old(segmentBaseIndex) <= segmentBaseIndex <= base + |window|
      ensures dataset.segments == window[segmentBaseIndex - base..]
      ensures exact ==> ValidWindow() && Clean() && AllNeeded(window, segmentBaseIndex - base) && WithinLimits()
    {
      hide TotalBytes, AllNeeded, ValidWindow;
      while dataset.segments != [] && cachedBytes > segmentCacheBytes
        invariant Window() && old(segmentBaseIndex) <= segmentBaseIndex <= base + |window|
        invariant dataset.segments == window[segmentBaseIndex - base..]
        invariant segmentCacheMax > 0 ==> |dataset.segments| <= segmentCacheMax
        invariant exact ==> ValidWindow() && Clean() && AllNeeded(window, segmentBaseIndex - base)
        decreases |dataset.segments|
      {
        if exact {
          CachedWindow();
          NeedsOneMore(window, segmentBaseIndex - base);
        }
        DropCachedSegments(1);
      }
      if exact {
        CachedWindow();
        NoBytes();
      }
    }

    /**
     Writes the sealed segments that do not count as persisted. A file that is
     already there is never written again, so that a failed write which left
     one behind makes this fail from then on.
     */
    method PersistNewSegments(outcome: nat -> WriteOutcome) returns (ok: bool)
      requires Window()
      modifies this`persistedSegments, this`segmentBaseIndex, this`cachedBytes, this`disk, dataset`segments
      ensures Window()
      ensures old(Valid()) ==> Valid() && (ok ==> Clean() && WithinLimits())
      ensures ok <==> forall i :: old(persistedSegments) <= i < |Sealed| ==> i !in old(disk) && outcome(i).Written?
      ensures ok ==> persistedSegments == if old(persistedSegments) < |Sealed| then |Sealed| else old(persistedSegments)
      ensures ok ==> disk == WithFiles(old(disk), Sealed, old(persistedSegments), |Sealed|)
      ensures !ok ==> persistedSegments < |Sealed| && dataset.segments == old(dataset.segments)
      ensures !ok ==> persistedSegments in old(disk) || !outcome(persistedSegments).Written?
      ensures old(persistedSegments) < |Sealed| && old(persistedSegments in disk) ==>
                persistedSegments == old(persistedSegments) && disk == old(disk)
    {
      hide TotalBytes, SegmentBytes, Stores, WithFiles, AfterWrite, AllNeeded, Window, ValidWindow;
      NoNewFiles(disk, Sealed, persistedSegments);
      WindowCount();
      while persistedSegments < segmentBaseIndex + |dataset.segments|
        invariant Window() && (old(Valid()) ==> Valid()) && persistedSegments >= old(persistedSegments)
        invariant segmentBaseIndex == old(segmentBaseIndex) && dataset.segments == old(dataset.segments)
        invariant persistedSegments == old(persistedSegments) || persistedSegments <= |Sealed|
        invariant forall i :: old(persistedSegments) <= i < persistedSegments ==> i !in old(disk) && outcome(i).Written?
        invariant disk == WithFiles(old(disk), Sealed, old(persistedSegments), Min(persistedSegments, |Sealed|))
        decreases |Sealed| - persistedSegments
      {
        var index := persistedSegments;
        WindowCount();
        OneNewFile(old(disk), Sealed, old(persistedSegments), index);
        ok := PersistOne(outcome(index));
        if !ok {
          return;
        }
      }
      WindowCount();
      EnforceSegmentCacheLimits();
      return true;
    }

    lemma WindowCount()
      requires Window()
      ensures segmentBaseIndex <= persistedSegments && |Sealed| == segmentBaseIndex + |dataset.segments|
    {
    }

    /** One turn of the loop of PersistNewSegments. */
    method PersistOne(outcome: WriteOutcome) returns (written: bool)
      requires Window() && persistedSegments < |Sealed|
      modifies this`persistedSegments, this`cachedBytes, this`disk
      ensures Window() && written == (old(persistedSegments !in disk) && outcome.Written?)
      ensures persistedSegments == old(persistedSegments) + if written then 1 else 0
      ensures disk == AfterWrite(old(disk), old(persistedSegments), Sealed[old(persistedSegments)], outcome)
      ensures written ==> disk == old(disk)[old(persistedSegments) := Good(Sealed[old(persistedSegments)])]
      ensures old(persistedSegments in disk) ==> disk == old(disk)
      ensures old(Valid()) ==> Valid()
    {
      hide TotalBytes, Stores;
      written := WriteNext(outcome);
      if written {
        CountWritten();
      }
    }

    /**
     The write of the next file, before any counter moves. Whatever it comes to,
     the store is valid in between.
     */
    method WriteNext(outcome: WriteOutcome) returns (written: bool)
      requires Window() && persistedSegments < |Sealed|
      modifies this`disk
      ensures Window() && written == (persistedSegments !in old(disk) && outcome.Written?)
      ensures disk == AfterWrite(old(disk), persistedSegments, Sealed[persistedSegments], outcome)
      ensures old(Valid()) ==> Valid()
    {
      hide TotalBytes, SegmentBytes;
      var index := persistedSegments;
      var segment := dataset.segments[index - segmentBaseIndex];
      ghost var before := disk;
      written := index !in disk && outcome.Written?;
      if index !in disk {
        disk := AfterWrite(disk, index, segment, outcome);
      }
      assert Stores(before, Sealed[..index]) && index !in before && disk == before[index := Good(segment)] ==>
             Stores(disk, Sealed[..index + 1]);
    }

    /** The counters after a successful write. */
    method CountWritten()
      requires Window() && persistedSegments < |Sealed|
      modifies this`persistedSegments, this`cachedBytes
      ensures Window() && persistedSegments == old(persistedSegments) + 1
      ensures old(Valid() && ReadableFiles() == persistedSegments + 1) ==> Valid()
    {
      hide TotalBytes, SegmentBytes;
      var index := persistedSegments;
      var segment := dataset.segments[index - segmentBaseIndex];
      ghost var window, k := Sealed[segmentBaseIndex..], index - segmentBaseIndex;
      TotalBytesStep(window, k);
      assert window[..k] == Sealed[segmentBaseIndex..index] && window[..k + 1] == Sealed[segmentBaseIndex..index + 1];
      cachedBytes := cachedBytes + SegmentBytes(segment);
      persistedSegments := persistedSegments + 1;
    }

    /** Segment `idx` as a reader finds it: in the window, or else in its file. */
    function SegmentAt(idx: nat): File
      reads this, dataset
    {
      if segmentBaseIndex <= idx < segmentBaseIndex + |dataset.segments| then
        Good(dataset.segments[idx - segmentBaseIndex])
      else if idx in disk then disk[idx] else Torn
    }

    /** Segment `idx` is in the window, and its column `c` has given up its plain storage when it was sealed. */
    predicate Released(idx: nat, c: nat)
      reads this, dataset
    {
      && recovered <= idx && segmentBaseIndex <= idx < segmentBaseIndex + |dataset.segments|
      && var fields := dataset.segments[idx - segmentBaseIndex].fields;
         c < |fields| && GivesUp(policy, fields[c])
    }

    /** What ForEachSegment visits last: the active columns, also when they have no rows. */
    function ActiveSegments(): seq<Segment>
      reads this, dataset
    {
      if dataset.active == [] then [] else [Segment(dataset.active, dataset.ActiveRowCount())]
    }

    /** The segments shown to a visitor that never stops the enumeration. */
    method ForEachSegment() returns (ok: bool, visited: seq<Segment>)
      ensures ok <==> forall idx: nat :: idx < persistedSegments ==> SegmentAt(idx).Good?
      ensures ok ==> |visited| == persistedSegments + |ActiveSegments()|
      ensures ok ==> forall idx: nat :: idx < persistedSegments ==> SegmentAt(idx) == Good(visited[idx])
      ensures ok ==> visited[persistedSegments..] == ActiveSegments()
    {
      visited := [];
      var inMemoryBase := segmentBaseIndex;
      var inMemoryEnd := inMemoryBase + |dataset.segments|;
      for idx := 0 to persistedSegments
        invariant |visited| == idx
        invariant forall i: nat :: i < idx ==> SegmentAt(i) == Good(visited[i])
      {
        if inMemoryBase <= idx < inMemoryEnd {
          visited := visited + [dataset.segments[idx - inMemoryBase]];
        } else {
          if idx !in disk || disk[idx].Torn? {
            assert !SegmentAt(idx).Good?;
            return false, visited;
          }
          visited := visited + [disk[idx].segment];
        }
      }
      ok := true;
      if dataset.active != [] {
        visited := visited + [Segment(dataset.active, dataset.ActiveRowCount())];
      }
    }

    /** The store's part of HandleAppendBatch. `stored` tells whether the rows are in the table. */
    method Append(batches: seq<FieldBatch>, outcome: nat -> WriteOutcome) returns (ok: bool, ghost stored: bool)
      requires Window() && dataset.Aligned()
      modifies this, dataset
      ensures Window() && old(Sealed) <= Sealed && recovered == old(recovered)
      ensures old(Valid()) ==> Valid()
      ensures stored == old(dataset.Accepts(batches))
      ensures ok ==> stored && (old(Valid()) ==> Clean() && WithinLimits())
      ensures stored && BatchCount(batches) > 0 ==>
                dataset.Aligned() && SameCount(batches, BatchCount(batches)) &&
                TableRows() == old(TableRows()) + BatchRows(batches, BatchCount(batches))
      ensures !stored || BatchCount(batches) == 0 ==>
                Sealed == old(Sealed) &&
                (!old(dataset.Starts(batches)) ==> dataset.Aligned() && TableRows() == old(TableRows()))
      ensures stored ==> (ok <==> forall i :: old(persistedSegments) <= i < |Sealed| ==> i !in old(disk) && outcome(i).Written?)
      ensures ok ==> disk == WithFiles(old(disk), Sealed, old(persistedSegments), |Sealed|)
      ensures old(persistedSegments < |Sealed| && persistedSegments in disk) ==>
                !ok && persistedSegments == old(persistedSegments) && disk == old(disk)
    {
      hide AllRows, RowsOf, BatchRows, TotalBytes, Stores, FirstWithoutBytes;
      ok := AppendRows(batches);
      stored := ok;
      if !ok {
        return false, false;
      }
      ok := PersistNewSegments(outcome);
    }

    /** The append in memory, before anything is written. */
    method AppendRows(batches: seq<FieldBatch>) returns (ok: bool)
      requires Window() && dataset.Aligned()
      modifies this`Sealed, dataset
      ensures Window() && ok == old(dataset.Accepts(batches)) && old(Sealed) <= Sealed
      ensures old(Valid()) ==> Valid()
      ensures ok && BatchCount(batches) > 0 ==>
                dataset.Aligned() && SameCount(batches, BatchCount(batches)) &&
                TableRows() == old(TableRows()) + BatchRows(batches, BatchCount(batches))
      ensures !ok || BatchCount(batches) == 0 ==>
                Sealed == old(Sealed) &&
                (!old(dataset.Starts(batches)) ==> dataset.Aligned() && TableRows() == old(TableRows()))
    {
      hide AllRows, TotalBytes, RowsOf, BatchRows, FirstWithoutBytes, Stores;
      ghost var segments := dataset.segments;
      ok := dataset.AppendBatch(batches);
      ghost var sealed := dataset.segments[|segments|..];
      assert dataset.segments == segments + sealed;
      GrowSealed(segments, sealed);
      if ok && BatchCount(batches) > 0 {
        assert AllRows(Sealed) + dataset.ActiveRows() ==
               AllRows(old(Sealed)) + (AllRows(sealed) + dataset.ActiveRows());
        assert TableRows() == old(TableRows()) + BatchRows(batches, BatchCount(batches));
      }
    }

    /** Accounts for the segments that an append added to the window. */
    ghost method GrowSealed(before: seq<Segment>, more: seq<Segment>)
      requires dataset.segments == before + more && dataset.Valid()
      requires NonEmptySegments(Sealed) && NonEmptySegments(more)
      requires AllMatch(Sealed, dataset.types) && AllMatch(more, dataset.types)
      requires segmentBaseIndex <= persistedSegments
      requires |Sealed| == segmentBaseIndex + |before| && before == Sealed[segmentBaseIndex..]
      modifies this`Sealed
      ensures Window() && Sealed == old(Sealed) + more
      ensures AllRows(Sealed) == AllRows(old(Sealed)) + AllRows(more)
      ensures (&& ReadableFiles() <= |old(Sealed)|
               && cachedBytes == TotalBytes(old(Sealed)[segmentBaseIndex..persistedSegments])
               && Stores(disk, old(Sealed)[..ReadableFiles()])) ==> Valid()
    {
      hide AllRows, TotalBytes;
      AllRowsConcat(Sealed, more);
      ghost var sealed, p, k := Sealed, persistedSegments, ReadableFiles();
      Sealed := Sealed + more;
      assert k <= |sealed| ==> Sealed[..k] == sealed[..k];
      assert p <= |sealed| ==> Sealed[segmentBaseIndex..p] == sealed[segmentBaseIndex..p];
      assert Sealed[segmentBaseIndex..] == sealed[segmentBaseIndex..] + more;
    }

    /** The active rows as the segment that a flush writes. */
    function ActiveSegment(): Segment
      reads this, dataset
    {
      Segment(dataset.active, dataset.ActiveRowCount())
    }

    /** The files hold the sealed segments, and after them the active rows `n` times. */
    ghost predicate FlushedFiles(n: nat)
      reads this, dataset
    {
      Window() && dataset.Aligned() && Stores(disk, Sealed + Copies(ActiveSegment(), n))
    }

    /** What `n` flushes in a row make of a clean table: `n` files too many. */
    ghost predicate Flushed(n: nat)
      reads this, dataset
    {
      FlushedFiles(n) && persistedSegments == |Sealed| + n
    }

    /**
     The body of FlushActiveSegments for one table. The active rows stay in
     memory, so that the next flush writes them again.
     */
    method FlushActive(outcome: WriteOutcome) returns (ok: bool)
      modifies this`persistedSegments, this`disk
      ensures dataset.ActiveRowCount() == 0 ==>
                ok && persistedSegments == old(persistedSegments) && disk == old(disk)
      ensures dataset.ActiveRowCount() > 0 ==> ok == (old(persistedSegments !in disk) && outcome.Written?)
      ensures dataset.ActiveRowCount() > 0 ==> disk == AfterWrite(old(disk), old(persistedSegments), ActiveSegment(), outcome)
      ensures dataset.ActiveRowCount() > 0 ==> persistedSegments == old(persistedSegments) + if ok then 1 else 0
      ensures forall n: nat :: old(Flushed(n)) && dataset.ActiveRowCount() > 0 && old(persistedSegments !in disk) ==>
                (ok ==> Flushed(n + 1)) && (outcome.NotSynced? ==> FlushedFiles(n + 1)) && (!ok && !outcome.NotSynced? ==> Flushed(n))
    {
      hide Stores, Copies;
      if dataset.ActiveRowCount() == 0 {
        return true;
      }
      ok := WriteActive(outcome);
      if ok {
        persistedSegments := persistedSegments + 1;
      }
    }

    /** The write of the active rows, before the counter moves. */
    method WriteActive(outcome: WriteOutcome) returns (ok: bool)
      modifies this`disk
      ensures ok == (old(persistedSegments !in disk) && outcome.Written?)
      ensures disk == AfterWrite(old(disk), persistedSegments, ActiveSegment(), outcome)
      ensures forall n: nat :: old(Flushed(n)) && old(persistedSegments !in disk) ==>
                FlushedFiles(if outcome.NotSynced? || outcome.Written? then n + 1 else n)
    {
      ghost var before := disk;
      ok := persistedSegments !in disk && outcome.Written?;
      disk := AfterWrite(disk, persistedSegments, ActiveSegment(), outcome);
      forall n: nat | old(Flushed(n)) && persistedSegments !in before
        ensures FlushedFiles(if outcome.NotSynced? || outcome.Written? then n + 1 else n)
      {
        assert Sealed + Copies(ActiveSegment(), n + 1) == Sealed + Copies(ActiveSegment(), n) + [ActiveSegment()];
      }
    }
  }

  /** The result that ForEachSegment promises when every file it needs is readable. */
  ghost predicate Visits(s: DatasetState, visited: seq<Segment>)
    reads s, s.dataset
  {
    && |visited| == s.persistedSegments + |s.ActiveSegments()|
    && (forall idx: nat :: idx < s.persistedSegments ==> s.SegmentAt(idx) == Good(visited[idx]))
    && visited[s.persistedSegments..] == s.ActiveSegments()
  }

  lemma VisitedRows(s: DatasetState, sealed: seq<Segment>, visited: seq<Segment>)
    requires Visits(s, visited) && s.dataset.Aligned()
    requires NonEmptySegments(sealed) && |sealed| == s.persistedSegments
    requires forall idx: nat :: idx < |sealed| ==> s.SegmentAt(idx) == Good(sealed[idx])
    ensures visited == sealed + s.ActiveSegments()
    ensures forall v :: v in visited ==> ValidSegment(v)
    ensures AllRows(visited) == AllRows(sealed) + s.dataset.ActiveRows()
  {
    hide AllRows;
    assert visited == visited[..|sealed|] + visited[|sealed|..];
    assert visited[..|sealed|] == sealed;
    AllRowsConcat(sealed, s.ActiveSegments());
    NoSegments();
    if s.dataset.active != [] {
      AllRowsSingle(Segment(s.dataset.active, s.dataset.ActiveRowCount()));
    }
  }

  /**
   An enumeration never fails on a valid table. It shows every row once and in
   order exactly when no sealed segment is waiting to be written; otherwise the
   rows of the waiting segments are missing, although they were readable before
   they were sealed.
   */
  lemma EnumerationShowsEveryRow(s: DatasetState, visited: seq<Segment>)
    requires s.Valid() && s.dataset.Aligned()
    requires Visits(s, visited)
    ensures forall idx: nat :: idx < s.persistedSegments ==> s.SegmentAt(idx).Good?
    ensures forall v :: v in visited ==> ValidSegment(v)
    ensures AllRows(visited) == AllRows(s.Sealed[..s.persistedSegments]) + s.dataset.ActiveRows()
    ensures AllRows(visited) == s.TableRows() <==> s.Clean()
  {
    hide AllRows;
    var p := s.persistedSegments;
    VisitedRows(s, s.Sealed[..p], visited);
    assert s.Sealed == s.Sealed[..p] + s.Sealed[p..];
    AllRowsConcat(s.Sealed[..p], s.Sealed[p..]);
    if s.Clean() {
      assert s.Sealed[..p] == s.Sealed;
    } else {
      SomeRows(s.Sealed[p..]);
    }
  }

  lemma SomeRows(s: seq<Segment>)
    requires NonEmptySegments(s) && s != []
    ensures AllRows(s) != []
  {
    assert |SegmentRows(s[0])| > 0;
  }

  /** After `n` flushes the active rows are enumerated `n` times more than they are in the table. */
  lemma FlushedRowsAppearAgain(s: DatasetState, n: nat, visited: seq<Segment>)
    requires s.Flushed(n) && s.dataset.ActiveRowCount() > 0
    requires Visits(s, visited)
    ensures forall v :: v in visited ==> ValidSegment(v)
    ensures AllRows(visited) == AllRows(s.Sealed) + Repeated(s.dataset.ActiveRows(), n) + s.dataset.ActiveRows()
    ensures AllRows(visited) == s.TableRows() <==> n == 0
  {
    hide AllRows;
    var copies := Copies(s.ActiveSegment(), n);
    VisitedRows(s, s.Sealed + copies, visited);
    AllRowsConcat(s.Sealed, copies);
    CopiesRows(s.ActiveSegment(), n);
    RepeatedLength(s.dataset.ActiveRows(), n);
  }

  lemma {:induction false} CopiesRows(s: Segment, n: nat)
    requires ValidSegment(s)
    ensures AllRows(Copies(s, n)) == Repeated(SegmentRows(s), n)
  {
    if n != 0 {
      CopiesRows(s, n - 1);
      assert Copies(s, n) == Copies(s, n - 1) + [s];
      AllRowsConcat(Copies(s, n - 1), [s]);
      AllRowsSingle(s);
    }
  }

  lemma RepeatedLength(rows: seq<Row>, n: nat)
    requires rows != []
    ensures |Repeated(rows, n)| == 0 <==> n == 0
  {
  }

  /** An append after `n` flushes takes the files of the flushes for the first `n` segments that it seals. */
  lemma FilesAfterFlushes(disk: Disk, sealed: seq<Segment>, x: Segment, n: nat, more: seq<Segment>)
    requires Stores(disk, sealed + Copies(x, n))
    ensures Stores(WithFiles(disk, sealed + more, |sealed| + n, |sealed + more|),
                   sealed + Copies(x, n) + more[Min(n, |more|)..])
  {
    var files := sealed + Copies(x, n) + more[Min(n, |more|)..];
    var all := sealed + more;
    forall i | 0 <= i < |files|
      ensures files[i] == if i < |sealed| + n then (sealed + Copies(x, n))[i] else all[i]
    {
    }
  }

  lemma NoNewFiles(disk: Disk, s: seq<Segment>, from: nat)
    ensures WithFiles(disk, s, from, Min(from, |s|)) == disk
  {
  }

  lemma OneNewFile(disk: Disk, s: seq<Segment>, from: nat, to: nat)
    requires from <= to < |s|
    ensures WithFiles(disk, s, from, to + 1) == WithFiles(disk, s, from, to)[to := Good(s[to])]
    ensures to in WithFiles(disk, s, from, to) <==> to in disk
  {
  }

  lemma NoBytes()
    ensures TotalBytes([]) == 0
  {
  }

  lemma TotalBytesStep(s: seq<Segment>, i: nat)
    requires i < |s|
    ensures TotalBytes(s[..i + 1]) == TotalBytes(s[..i]) + SegmentBytes(s[i])
  {
    hide SegmentBytes;
    assert s[..i + 1] == s[..i] + [s[i]];
    TotalBytesConcat(s[..i], [s[i]]);
    assert [s[i]][1..] == [];
  }
}
