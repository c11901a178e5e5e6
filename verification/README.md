# MimicDB: a verified model of the server, its client and its query layers

MimicDB is a column store. A table is a list of sealed segments, of which the
oldest live only in files, and of active columns that are being filled. Scans
and aggregates run over segments in several stored forms; a client talks to
the server through an encrypted channel; a Python layer adds an extension with
its own queries, appends to several servers, and documents on top of tables.

The modules follow that structure.

- **Hashing**: `Sha256Standard`, `HmacStandard` are the standards, evaluated
  on one message in `Sha256Example` and on one key and text in `HmacExample`;
  `Sha256Stream`, `HmacServer` are the server's buffer loops.
- **Tables**: `Table`, `DatasetEngine`, `SegmentStore`, `DirectoryOrder`,
  `Recovery`; `Sealing` for the form that each column of a sealed segment takes,
  `BitPacking` and `PackedForms` for the packed ones.
- **Scans**: `Predicates`, `Doubles`, `Lz4`, `Lz4Block`, `NumberArrays`, `Views`,
  `ScanSpec`, `ScanTable`, `PredicateMask`, `Lz4Batches`, `Scanner`,
  `ScanRefinement`, `StoreViews`, and `EndToEnd` from the appended rows to the
  client and to the extension.
- **Aggregates**: `Aggregation` for the server, `PythonQuery` for the plain
  Python loops, `ExtensionQuery` for the compiled extension.
- **Wire**: `Bytes`, `Bitmap`, `ColumnFormat`, `WireNames`, `AppendCodec`,
  `ScanCodec`, `SecureChannel`.
- **Control**: `Permissions`, `SessionCache`, `ClockMix`, `ExactlyOnce`.
- **Documents**: `DocumentLog`, `PathLens`, `DocumentTree`.

Loops and objects of the source are methods and classes here. Each is proved
against a function or predicate that says what it is for, and the lemmas
relate those: a scan, in any executor and any division into segments, is
`Found` over the rows that were appended; an aggregate is a summary of the
numbers that the same rows select; a payload is described by one request only.

## Where the code departs from the simple statement

Each of these is proved, with the exact condition under which the simple
statement holds.

- A key of more than 64 bytes: `HmacSha256` copies the key over its digest
  (`HmacServer.KeyBlockAgrees`); 65 zero bytes are such a key
  (`HmacServer.LongKeyCounterexample`).
- A string column whose values are all empty arrives without bytes, and the
  engine refuses the batch after it has changed earlier columns
  (`DatasetEngine.RefusedBatchJamsTable`).
- The writer of segments never touches a file that exists. A write that fails
  and leaves a file behind therefore makes every append fail from then on,
  although the rows are in memory (`SegmentStore.DatasetState.Append`); the
  sealed segments that wait are not shown by any enumeration
  (`SegmentStore.EnumerationShowsEveryRow`), and their batches are not
  recorded (`ExactlyOnce.RetryStoresOnceExactly`).
- A flush leaves the active rows in memory. They are enumerated again, and the
  next flush writes them again, so that a restart finds them once for every
  flush (`SegmentStore.FlushedRowsAppearAgain`, `Recovery.RestartAfterFlushes`).
  The file of a flush also stands in for the next segment that is sealed, and a
  restart loses the other rows of that segment (`Recovery.FlushThenSealLoses`).
- Recovery sorts file names as text (`DirectoryOrder.ListingIsNumeric`). With
  eleven files and evictions an enumeration then shows one segment twice and
  another never (`Recovery.ElevenFilesExample`).
- Scans of compressed segments convert the constant of a predicate to int64:
  fractions are lost, and constants from 2^63 on become whatever the machine
  makes of them (`Predicates.TruncationExact`, `Predicates.SafeOnEveryMachine`,
  `Predicates.LargeConstantExample`). The bytes of a bool are compared as they
  are (`Predicates.BoolBytesExact`), and nulls keep their offset
  (`Views.RunningOffsetExact`).
- No sealed column is ever LZ4: the encoding consists of literals and is longer
  than its input, so that it never pays (`Sealing.Lz4NeverKept`). With a minimal
  ratio of 1 a float column can be kept as deltas that were never encoded
  (`Sealing.FloatKeptAtRatioOne`).
- A packed column gives up its plain storage when its segment is sealed, but the
  server's aggregate reads the plain storage. As long as the segment is in the
  window, an aggregate that reads a value of such a column crashes
  (`Aggregation.QueryAggregate`, `Aggregation.PackedColumnCrashes`).
- A scan without output columns reports no rows (`ScanCodec.ScanResponse`).
- Aggregation with several threads leaves out rows that are not persisted
  (`Aggregation.ThreadsMissRows`).
- The extension reads one field for minimum and maximum, and it counts
  differently from the Python loops
  (`ExtensionQuery.ExtensionAgreesExactly`); its scan converts the constant of a
  single equality to int32 (`ExtensionQuery.ScanAgreesExactly`), and it shows None
  for the empty texts of a sealed column without a byte
  (`ExtensionQuery.ScanAgreesOnTable`, `ExtensionQuery.EmptyTextsExample`).
- The client sends the number of characters of a name instead of its bytes
  (`WireNames.NameReadsBack`).
- Revoking `db.admin` does not take back the six capabilities that a grant of it
  includes (`Permissions.AdminRevokeKeepsCapabilities`).
- Document versions need not rise (`DocumentLog.ReaderTakesLastExactly`,
  `DocumentLog.FallingVersionLosesUpdate`), and batch ids need not be distinct
  (`ExactlyOnce.EqualIdsLoseBatch`). Both do as they should while the clock moves
  on above all bits of the counter (`DocumentLog.VersionsRise`,
  `ExactlyOnce.ClientIdsStoreAll`).

## Model

| member | source | states |
|---|---|---|
| Sha256Stream.Sha256State.ExpandSchedule | server/mimicdb_server.cpp:278-294 | the 64 schedule words of a block are those of section 6.2.2 of FIPS 180-4 |
| Sha256Stream.Sha256State.RunRounds | server/mimicdb_server.cpp:305-327 | the rotating assignments of the eight registers compute the 64 rounds of the standard |
| Sha256Stream.Sha256State.Transform | server/mimicdb_server.cpp:278-331 | one block changes the registers by the compression function of the standard and nothing else |
| Sha256Stream.Sha256State.Update | server/mimicdb_server.cpp:333-343 | after any split of a message into calls the state stands for the concatenation of all bytes so far |
| Sha256Stream.Sha256State.Final | server/mimicdb_server.cpp:345-383 | with either padding case the output is the digest of the whole message, for every length; the 64-bit length wraps as the code does |
| Sha256Stream.PadShort | server/mimicdb_server.cpp:348-352 | fewer than 56 buffered bytes: the padding of section 5.1.1 fits into the same block |
| Sha256Stream.PadLong | server/mimicdb_server.cpp:353-366 | 56 or more buffered bytes: the padding of section 5.1.1 takes one block more |
| Sha256Stream.FinalLength | server/mimicdb_server.cpp:368-376 | the counter of whole blocks plus the buffered bytes is the bit length of the message |
| Sha256Stream.DigestColumns | server/mimicdb_server.cpp:379-382 | writing one byte of every register per turn gives the eight words in big-endian order |
| HmacServer.HmacSha256 | server/mimicdb_server.cpp:511-535 | the output is HMAC (section 2 of RFC 2104) of the data under the key that the code uses in effect: the key itself, or its first 32 bytes if it has more than 64; for the key "Jefe" of test case 2 in section 4.3 of RFC 4231 it is the 32 bytes given there |
| HmacExample.CodeOfExample | server/mimicdb_server.cpp:511-535 | the HMAC of that test case by the standard, word by word through its four blocks: 5bdcc146 bf60754e and so on |
| HmacServer.HkdfSha256 | server/mimicdb_server.cpp:537-564 | the loop writes the first bytes of T(1) \| T(2) \| ..., with a one-byte counter that wraps, for every output length |
| HmacServer.HkdfWrittenOut | server/mimicdb_server.cpp:1662-1674 | up to 96 bytes, of which the handshake takes 80, are those of three codes under the extracted key, each over the one before, the info and its number |
| HmacServer.HkdfMeetsStandard | server/mimicdb_server.cpp:537-564 | with a salt of at most 64 bytes and an output of at most 255 * 32 bytes this is HKDF of sections 2.2 and 2.3 of RFC 5869 |
| HmacServer.CounterDoesNotWrap | server/mimicdb_server.cpp:545-562 | up to 255 blocks the byte counter gives the blocks of the standard |
| HmacServer.KeyBlockAgrees | server/mimicdb_server.cpp:514-519 | the key block is the standard one if and only if the key has at most 64 bytes or begins with its own digest |
| HmacServer.AgreesOnSoundKeys | server/mimicdb_server.cpp:511-535 | for a key of at most 64 bytes, or one that begins with its own digest, the code of every text is the HMAC of RFC 2104 |
| Sha256Example.DigestOfZeros | server/mimicdb_server.cpp:515-519 | the digest of 65 zero bytes by the standard, word by word: 98ce42de ef51d402 and so on |
| HmacServer.LongKeysCollide | server/mimicdb_server.cpp:515-519 | two long keys with the same first 32 bytes authenticate alike |
| HmacServer.LongKeyCounterexample | server/mimicdb_server.cpp:515-519 | a key for which the code departs: for 65 zero bytes the standard's block begins with 0x98, the code's with 0, and the code authenticates as under 64 zero bytes |
| DatasetEngine.Dataset.AppendBatch | engine/src/dataset.cpp:212-322 | exactly which requests are accepted; the rows, in order, of an accepted one are the rows of the new segments and the active columns; what a refused request leaves behind, column by column |
| DatasetEngine.Dataset.CheckBatches | engine/src/dataset.cpp:223-231 | the request is checked before the first change: all columns present, of the right type and of one length |
| DatasetEngine.RefusedBatchJamsTable | engine/src/dataset.cpp:286-289 | a batch refused for a string column without bytes leaves the table as it was if and only if that is its first column; otherwise the columns have different lengths from then on |
| DatasetEngine.RefusedBatchExample | engine/src/dataset.cpp:286-289 | a concrete batch with an empty string that does so |
| SegmentStore.DatasetState.DropCachedSegments | server/mimicdb_server.cpp:5015-5032 | only the oldest segments leave the window; while the counters are in step the byte counter falls by exactly their size: the saturating subtraction never saturates |
| SegmentStore.DatasetState.EnforceSegmentCacheLimits | server/mimicdb_server.cpp:5034-5052 | afterwards the window of a clean table is within both limits (unless a vector column keeps it), still valid, and no segment that is not on disk was dropped; it has lost its oldest segments only, and dropping any fewer would have exceeded a limit |
| ScanRefinement.FieldBytesAreStorage | server/mimicdb_server.cpp:4980-5013 | the bytes that a column counts in the cache are those it stores: its numbers, or its lengths and all bytes of its strings, and whole validity words |
| SegmentStore.DatasetState.PersistNewSegments | server/mimicdb_server.cpp:5908-5928 | succeeds if and only if no file is in the way and every write does; exactly which files and counters it leaves, also when a write leaves nothing, an unreadable file, or a readable one that was not synced; a file in the way makes it fail and change nothing |
| SegmentStore.DatasetState.PersistOne | server/mimicdb_server.cpp:5911-5924 | one turn of the loop: the file and the counter for every outcome of the write, and the invariant |
| SegmentStore.DatasetState.WriteNext | engine/src/segment_io.cpp:47-61 | the write of a file before the counters move: an existing file is left alone, and the invariant holds in between whatever the write comes to |
| SegmentStore.DatasetState.ForEachSegment | server/mimicdb_server.cpp:5054-5083 | the visitor sees the persisted segments in order, from the window or from disk, and then the active columns |
| SegmentStore.DatasetState.Append | server/mimicdb_server.cpp:2694-2701 | every append that the engine accepts adds exactly its rows at the end of the table and keeps the invariant, whatever is written and evicted; after a write that left a file behind every later append reports failure |
| SegmentStore.DatasetState.FlushActive | server/mimicdb_server.cpp:5930-5951 | a flush writes the active rows as one more file and leaves them in memory; what n flushes leave, also when the last one was not synced and its counter did not move |
| SegmentStore.EnumerationShowsEveryRow | server/mimicdb_server.cpp:5054-5083 | an enumeration never fails on a valid table, and it shows all rows once and in order if and only if no sealed segment waits to be written |
| SegmentStore.FlushedRowsAppearAgain | server/mimicdb_server.cpp:5930-5951 | after n flushes the active rows are enumerated n times more than they are in the table |
| Recovery.Recover | server/mimicdb_server.cpp:6031-6062 | recovery keeps window, counters and cache limits in step although it evicts while it loads; it loads exactly the readable files of the right schema in directory order and deletes the others, and from at most ten stored segments it re-establishes the whole store invariant with these segments |
| Recovery.LoadSegment | server/mimicdb_server.cpp:6056-6061 | one turn of the loading loop keeps window, counters and limits in step |
| DirectoryOrder.ListingIsNumeric | server/mimicdb_server.cpp:4944-4949 | file names sorted as text come in the order of their numbers if and only if there are at most ten |
| Recovery.RestartRestores | server/mimicdb_server.cpp:6038-6062 | what is loaded is the stored segments in name order; for at most ten files that is the stored sequence, and the files left are what the store needs |
| Recovery.RestartPermutes | server/mimicdb_server.cpp:6048-6062 | for any number of files each stored segment is loaded exactly once |
| Recovery.EnumerationAfterRestart | server/mimicdb_server.cpp:5054-5083 | after a restart the evicted segments are enumerated in the order of their numbers, the others in the order in which they were loaded |
| Recovery.ElevenFilesExample | server/mimicdb_server.cpp:6047-6048 | with eleven files recovery loads the last sealed segment third; once three to ten segments are evicted, an enumeration shows one segment twice and the last sealed one never |
| Recovery.StopKeepsPrefix | server/mimicdb_server.cpp:6038-6062 | a stop in any valid state, and so between any two steps of an append and after any outcome of a write: the restarted table has the rows of the readable files, a prefix of all rows that includes every persisted segment |
| Recovery.RestartKeepsPrefix | server/mimicdb_server.cpp:5911-5924 | the same for any disk that holds the first k sealed segments, whether or not the counters have reached k |
| Recovery.RestartAfterFlushes | server/mimicdb_server.cpp:5930-5951 | after n flushes a restart finds the active rows n times, also if the counter of the last flush did not move; the table is as it was if and only if n is 1 |
| Recovery.FlushThenSealLoses | server/mimicdb_server.cpp:6003-6011 | after a flush in the middle of a run and an append that seals segments, a restart loses exactly the rows of the first of them that were not in the flush |
| Lz4.LiteralStream.Read | server/mimicdb_server.cpp:3247-3285 | consecutive calls of any sizes hand out consecutive slices of the literals; a call fails if and only if too few are left, and then it has handed out all of them; it terminates in spite of empty runs |
| Lz4.LiteralStream.NextRun | server/mimicdb_server.cpp:3254-3274 | a token with its length bytes, as in the literals-length rule of the LZ4 block format; end of input or a cut run ends the literals |
| Lz4Block.EncodeLz4LiteralBlock | engine/src/compression.cpp:119-149 | the output is the list of runs of at most 64 KiB |
| Lz4Block.HeaderExactly | engine/src/compression.cpp:119-149 | the token of a run in closed form: the length in the high four bits, or 15 there, bytes 255 and the remainder |
| Lz4Block.EncodedExactly | engine/src/compression.cpp:119-149 | up to 65536 bytes are one run; longer data is cut there |
| Lz4Block.DecodeLz4LiteralBlock | engine/src/compression.cpp:151-178 | succeeds if and only if the size of the output is reached at the end of a run, and then yields that many literals |
| Lz4Block.EncodedRoundTrip | engine/src/compression.cpp:827-843 | both decoders give back every input of the encoder, with all its length-byte cases |
| Lz4Block.BoundaryWithinLiterals | engine/src/compression.cpp:151-178 | whatever the block decoder can produce, the literal stream can hand out |
| Predicates.TruncationExact | server/mimicdb_server.cpp:3502-3502 | comparing with the converted constant is right for every int64 if and only if the constant fits int64 and has no fraction or one that its sign and the operator excuse, or the machine converts a constant that does not fit to the end of the range that the operator needs |
| Predicates.SafeOnEveryMachine | server/mimicdb_server.cpp:3859-3859 | whatever the machine makes of constants that do not fit, exactly the constants that fit, with a fraction that makes no difference, are compared correctly |
| Predicates.LargeConstantExample | server/mimicdb_server.cpp:3502-3502 | 1e19 with "less than": every int64 is less, but the row that holds the converted constant is not found, and no row is where that is the least int64 |
| Predicates.BoolBytesExact | engine/src/compression.cpp:412-424 | the raw byte of a bool compares like the bool with every constant if and only if it is 0 or 1 |
| Doubles.OnlyDoubleReads | server/mimicdb_server.cpp:946-990 | the number that the bits of a float64 stand for: 0x3FF0000000000000 is 1, one more in the exponent doubles, numbers are evenly spaced within an exponent and down to 0 below the second one, the sign bit negates; exactly one function obeys this |
| Doubles.IntegerIsExact | server/mimicdb_server.cpp:946-990 | the bits of every integer from -2^53 to 2^53 stand for that integer |
| Doubles.IntegersCompare | server/mimicdb_server.cpp:946-990 | in an int32, int64, bool or float64 column the bits of every integer that it holds exactly satisfy a predicate if and only if the integer does |
| Doubles.OthersCompare | server/mimicdb_server.cpp:946-990 | nulls and texts satisfy no predicate, and every bool byte other than 0 is 1 |
| PredicateMask.BuildPredicateMask | server/mimicdb_server.cpp:992-1022 | one pass per predicate computes exactly the rows that satisfy all; it fails if and only if a predicate names no column |
| PredicateMask.FieldValue | server/mimicdb_server.cpp:3196-3210 | a string is found at the sum of the lengths before it |
| ScanTable.PruningIsSound | engine/src/predicate.cpp:75-91 | a zone map that rules out a predicate rules it out for every row of the column |
| ScanTable.PruningIsExact | engine/src/predicate.cpp:75-91 | a zone map keeps a predicate if and only if some number in its range satisfies it |
| Sealing.Lz4NeverKept | engine/src/segment.cpp:810-822 | no column of a sealed segment is kept as LZ4, whatever the configuration and the values: literals alone are longer than what they encode |
| Sealing.EncodedSize | engine/src/compression.cpp:119-149 | the size that the choice goes by is the length of the encoder's output |
| Sealing.OnlyIntegersArePacked | engine/src/segment.cpp:672-822 | with a minimal ratio above 1 only integer and bool columns give up their plain storage; int32 and bool only for packed bits |
| Sealing.ConstantIsPacked | engine/src/compression.cpp:680-742 | an int64 column of 4096 equal values is kept as a dictionary by default, whatever the hash |
| Sealing.CountingIsPacked | engine/src/compression.cpp:680-742 | an int32 column with the values 0 to 4095 is kept in packed bits by default, if no hashes collide |
| Sealing.DefaultChoiceExactly | engine/src/compression.cpp:680-742 | by default an integer column of at least 4096 rows and more than 256 estimated values is kept in packed bits if its range is below 2^16, as differences if it is an int64 column of range at most 2^20, and otherwise as it is |
| Sealing.FloatKeptAtRatioOne | engine/src/segment.cpp:730-740 | with a minimal ratio of 1 a float64 column of one value is kept as deltas although nothing was encoded |
| BitPacking.WriteBits | engine/src/segment.cpp:53-67 | the written bits are those of the value and all other bits stay |
| BitPacking.ReadBits | engine/src/compression.cpp:70-84 | reading bit by bit gives the number of the bits |
| BitPacking.WrittenIsRead | engine/src/segment.cpp:53-67 | what is written is read back modulo 2 to the number of bits |
| BitPacking.ReadFastAgrees | engine/src/compression.cpp:86-117 | the shortcuts for 4, 8 and 16 bits read what reading bit by bit reads |
| PackedForms.EncodeDictionary | engine/src/segment.cpp:69-122 | the dictionary has each value once, as many as the size says, and every value that is there is found under its id |
| PackedForms.EncodeBitpack | engine/src/segment.cpp:124-197 | each row has its difference from the least value, modulo the width; every value can be read if the range fits the width |
| PackedForms.EncodeForDelta | engine/src/segment.cpp:199-258 | 32-bit differences from the least value; every value can be read if the range fits 32 bits |
| PackedForms.BuildView | engine/src/segment.cpp:629-854 | an integer column: a form is kept if and only if the column gives up its storage, it has the size that the choice went by, and every value that is there can be read from it, since the chosen range always fits |
| PackedForms.ReadInt64Value | engine/src/compression.cpp:188-230 | reading a row of a packed form |
| PackedForms.ScanDictionary | engine/src/compression.cpp:468-532 | a predicate on a dictionary, with ids compared for == and !=, selects the rows whose values satisfy it |
| PackedForms.ScanBits | engine/src/compression.cpp:534-578 | a predicate on packed bits selects the rows whose values satisfy it, by the shortcuts or without |
| Scanner.ComputeStats | engine/src/segment.cpp:380-510 | the zone map of a numeric column bounds its non-null numbers and is attained |
| Scanner.Scan.Emit | server/mimicdb_server.cpp:3472-3481 | one more row goes to every output buffer, and the limit counts down and stops the scan at 0 |
| Scanner.Scan.ScanFields | server/mimicdb_server.cpp:3453-3485 | a plain segment: the emitted rows and the counters are those of filter, offset and limit; it fails if and only if a predicate names no column |
| Scanner.Scan.CompressedMask | server/mimicdb_server.cpp:3489-3523 | the intersection of one mask per predicate is the set of rows that satisfy all, for floats and for constants that every machine converts exactly, over bools of 0 and 1 |
| Scanner.Scan.AdvanceOffsets | server/mimicdb_server.cpp:3543-3555 | a row that is not emitted still moves the offset of every string column |
| Scanner.Scan.CompressedRow | server/mimicdb_server.cpp:3339-3445 | an emitted row takes its strings at the running offsets and moves them |
| Scanner.Scan.ScanCompressed | server/mimicdb_server.cpp:3487-3591 | a compressed segment without LZ4 columns: as for a plain one, under the same conditions |
| Views.RunningOffsetExact | server/mimicdb_server.cpp:3346-3384 | the running offset is the sum of the earlier lengths, whichever rows are emitted, if and only if no null before it stores bytes |
| Lz4Batches.ReadNumbers | server/mimicdb_server.cpp:3648-3668 | a batch of fixed-width values is the slice of the decoded column that belongs to its rows |
| Lz4Batches.ReadTexts | server/mimicdb_server.cpp:3702-3732 | the bytes of a batch of strings are as many as its lengths add up to, and the stream is left at the next batch |
| Lz4Batches.DecodeColumn | server/mimicdb_server.cpp:3647-3739 | one batch of one column, its streams positioned before and after it |
| Lz4Batches.Decoders.DecodeBatch | server/mimicdb_server.cpp:3642-3739 | all columns that a predicate or an output needs; the streams of all of them move on together |
| Scanner.Scan.RowMatches | server/mimicdb_server.cpp:3831-3870 | the row-wise test of the batch executor agrees with the exact predicates for such constants |
| Scanner.Scan.BatchRow | server/mimicdb_server.cpp:3898-4000 | a row of a batch, with indices relative to the batch for LZ4 columns and to the segment for the others |
| Scanner.Scan.ScanLz4 | server/mimicdb_server.cpp:3612-4013 | a segment with LZ4 columns in batches of 4096 rows: as for a plain one |
| Scanner.Scan.SegmentMatches | server/mimicdb_server.cpp:3593-3610 | a segment is skipped only if none of its rows satisfies all predicates |
| Scanner.Scan.Run | server/mimicdb_server.cpp:4028-4101 | for any list of segments in any mix of forms the output buffers hold exactly take(limit) of drop(offset) of the matching rows in table order; a scan is refused only for a predicate without a column |
| ScanSpec.OfferAllIsDropTake | server/mimicdb_server.cpp:3447-3476 | the shared counters of offset and limit compute drop and take over all segments |
| ScanRefinement.ScanIsQuery | server/mimicdb_server.cpp:3447-4101 | the matching rows of all segments are those of a plain query over the concatenated rows |
| ScanRefinement.StorageDoesNotMatter | server/mimicdb_server.cpp:3447-4101 | two ways to divide and store the same rows give the same scan |
| ScanRefinement.StoredFormsShowTheCells | server/mimicdb_server.cpp:3339-3445 | a sealed column shows the values that were appended, with LZ4 compression or without |
| StoreViews.ScanFindsAppendedRows | server/mimicdb_server.cpp:4028-4101 | a scan over what a clean table enumerates finds what the query finds in the appended rows |
| Aggregation.Accumulate | engine/src/aggregate.cpp:607-626 | one more number in count, sum, minimum and maximum |
| Aggregation.MergeAggregate | server/mimicdb_server.cpp:1023-1038 | merging the aggregates of two lists of numbers gives the aggregate of their concatenation |
| Aggregation.RangesPartition | server/mimicdb_server.cpp:2787-2788 | the ranges (p * t) / n to (p * (t + 1)) / n: every persisted segment belongs to exactly one thread |
| Aggregation.AggregateSegment | server/mimicdb_server.cpp:2807-2821 | the numbers of one segment that the predicates select; it crashes if and only if a value of a column without storage is read, and is refused only for a predicate without a column |
| Aggregation.MaskOfSegment | server/mimicdb_server.cpp:992-1022 | one pass per predicate over the plain storage: it crashes if and only if some predicate is evaluated on a value of a column without storage, which no predicate behind one without a column is |
| Aggregation.StoredColumnsAreSafe | server/mimicdb_server.cpp:2807-2857 | no crash if no persisted segment of the window has given up the storage of the target or of a predicate's column |
| Aggregation.TargetFaultsExactly | engine/src/aggregate.cpp:129-225 | without predicates a segment crashes the query if and only if its target column has given up its storage and has a value |
| Aggregation.PackedColumnCrashes | engine/src/segment.cpp:824-851 | such a table: one int64 column, 4096 equal values in a persisted segment of the window, the default configuration |
| Aggregation.RunThreads | server/mimicdb_server.cpp:2784-2829 | each thread aggregates exactly its range; a crash in any range is a crash of the query |
| Aggregation.MergePartials | server/mimicdb_server.cpp:2834-2836 | the partial results merged in order are the aggregate of one sequential pass |
| Aggregation.ThreadCount | server/mimicdb_server.cpp:2777-2780 | one thread if and only if at most one is configured or at most one segment is persisted; otherwise as many as the smaller of the two |
| Aggregation.AggregateThreads | server/mimicdb_server.cpp:2784-2836 | for every number of threads: the aggregate of one pass over the persisted segments, unless one of them crashes the query |
| Aggregation.QueryAggregate | server/mimicdb_server.cpp:2764-2862 | exactly when the query is refused, exactly when it crashes, namely if a persisted segment of the window makes it read a value of a column without storage; otherwise, with at most one configured thread or at most one persisted segment, the aggregate of one pass over the persisted segments and the active rows, and in all other cases that of the persisted segments alone |
| Aggregation.ThreadsMissRows | server/mimicdb_server.cpp:2776-2858 | with several threads the answer is that of the whole table if and only if no row outside the persisted segments contributes a number |
| PythonQuery.ApplyPredicates | api/mimicapi/query.py:179-192 | the mask of the reference loop is the set of rows that satisfy all predicates |
| PythonQuery.PythonAggregate | api/mimicapi/query.py:194-248 | sum, minimum, maximum and count of the reference loops |
| PythonQuery.PythonScan | api/mimicapi/query.py:153-177 | the reference scan is take(limit) of drop(offset) of the matching rows |
| ExtensionQuery.ExtensionAgreesExactly | api/mimicapi/_mimicdb.cpp:774-781 | the extension answers a request as the reference loops do, on every table, if and only if minimum and maximum name one field and a count does not come with both a sum and an extreme |
| ExtensionQuery.BuildReadableColumns | api/mimicapi/_mimicdb.cpp:52-99 | decoding the LZ4 columns of a segment changes none of its values |
| ExtensionQuery.MatchSingleEq | api/mimicapi/_mimicdb.cpp:166-198 | the comparison of the single-equality path, in a plain and in a compressed segment, is exact for the constant as the machine converts it |
| ExtensionQuery.MaskOf | api/mimicapi/_mimicdb.cpp:101-139 | the mask path selects exactly the rows that satisfy all predicates |
| ExtensionQuery.Totals.FastPath | api/mimicapi/_mimicdb.cpp:857-888 | one segment by the single-equality path: all accumulators stand for all rows so far |
| ExtensionQuery.Totals.MaskPath | api/mimicapi/_mimicdb.cpp:889-947 | one segment by the mask path: likewise |
| ExtensionQuery.Totals.Finish | api/mimicapi/_mimicdb.cpp:1101-1141 | the answer dictionary, with the choices of accumulator and count that the code makes |
| ExtensionQuery.NarrowingIsSafe | api/mimicapi/_mimicdb.cpp:172-173 | in an aggregate the zone maps keep every constant that does not fit into int32 away from the single-equality comparison |
| ExtensionQuery.DatasetAggregate | api/mimicapi/_mimicdb.cpp:811-1146 | over any division into segments and any storage the aggregate is the same, and rows scanned plus rows pruned are all rows |
| ExtensionQuery.DatasetScan | api/mimicapi/_mimicdb.cpp:1358-1726 | over any segments: take(limit) of drop(offset) of what the segments give, each with the constant as it is converted for it, and None for a text behind a null pointer |
| ExtensionQuery.ScanAgreesExactly | api/mimicapi/_mimicdb.cpp:172-173 | over the tables in which it hides no text, the scan finds what the reference scan finds if and only if the constant of a single equality on an int32 column fits int32 |
| ExtensionQuery.ScanAgreesOnTable | api/mimicapi/_mimicdb.cpp:1489-1524 | in any one table, with a constant that fits, the scan has as many rows as the reference, and the same rows if and only if no row that is found has, in a compressed segment, a text of an output column without a single byte |
| ExtensionQuery.EmptyTextsExample | api/mimicapi/_mimicdb.cpp:1493-1497 | rows of empty strings in a sealed segment: None in every row, where the reference shows the empty strings |
| EndToEnd.ExtensionScansAppendedRows | api/mimicapi/_mimicdb.cpp:1358-1726 | over the stored segments, in any form, the scan finds what the reference finds in the appended rows if and only if it hides no text |
| EndToEnd.TextsHiddenExactly | engine/src/field_vector.cpp:95-100 | in terms of the appended rows: a text is hidden if and only if its row is found, its segment is compressed, and its column was appended without a byte |
| EndToEnd.ExtensionAggregatesAppendedRows | api/mimicapi/_mimicdb.cpp:811-1146 | over stored segments with the zone maps of the engine the aggregate is the reference's over the appended rows, for every request on which the two agree |
| Bitmap.Pack | server/mimicdb_server.cpp:4114-4122 | bit i of the bitmap is flag i, and the spare bits are 0, for every length |
| Bitmap.Unpack | server/mimicdb_server.cpp:2671-2676 | the flags are the bits |
| Bitmap.EncodesUnique | client/mimicdb_client.py:955-960 | there is only one such bitmap, so the client and the server pack alike |
| Bytes.LittleEndianAt | client/mimicdb_client.py:442-446 | byte i of a number on the wire is its i-th digit in base 256, least significant first |
| Bitmap.TestBitExactly | server/mimicdb_server.cpp:2671-2676 | bit k of a byte is the one of weight 2^k |
| ColumnFormat.LayoutDescribes | client/mimicdb_client.py:457-480 | a written column can be read at its place: index, type, mode, count, lengths, values and validity |
| ColumnFormat.DescribesUnique | server/mimicdb_server.cpp:2609-2682 | a payload can be read as a column in one way only |
| WireNames.NameReadsBack | client/mimicdb_client.py:442-446 | the server reads a name back and goes on behind it if and only if all characters are ASCII, since the client sends the number of characters |
| WireNames.Utf8ReadsBack | client/mimicdb_client.py:442-446 | the encoding of a character can be read back by the table of section 3 of RFC 3629, and no shorter sequence stands for it |
| WireNames.ReadName | server/mimicdb_server.cpp:852-858 | exactly the names that fit into the payload are read |
| AppendCodec.NumberSurvives | client/mimicdb_client.py:939-947 | what int(), float() or the truth value of a Python object gives is the number that a query sees in the column |
| AppendCodec.WireTypeIds | client/mimicdb_client.py:59-68 | the ids of the types on the wire |
| AppendCodec.IntFitsExactly | client/mimicdb_client.py:939-947 | an integer can be packed into an int32 or int64 column if and only if some bits of that width stand for it |
| AppendCodec.PackValues | client/mimicdb_client.py:930-952 | fixed-width values, validity mode and bitmap; it fails if and only if the conversion for the type of the column fails for some value or gives a number that does not fit |
| AppendCodec.PackVarlen | client/mimicdb_client.py:963-998 | lengths and bytes of strings, a null as an empty one |
| AppendCodec.BuildAppend | client/mimicdb_client.py:432-482 | exactly which requests can be built, whatever objects the columns hold; the payload begins with both names, the batch id and the counts, and its columns follow as described; with ASCII names it describes the request and has no byte to spare |
| AppendCodec.ReadField | server/mimicdb_server.cpp:2609-2682 | one column is read if and only if the payload describes one whose index is in range |
| AppendCodec.ParseAppend | server/mimicdb_server.cpp:2561-2693 | the payloads that are accepted are exactly those that describe a request within the row limit; the cursor ends behind it |
| AppendCodec.AppendRoundTrip | server/mimicdb_server.cpp:2593-2693 | whatever the server reads from the payload of a client's request is that request: types, values, lengths and nulls of every column |
| ScanCodec.RenderedShape | server/mimicdb_server.cpp:3120-3217 | the buffers of an output column after all its rows, in closed form |
| ScanCodec.EncodeScan | server/mimicdb_server.cpp:4103-4167 | the response describes the output columns |
| ScanCodec.ParseScan | client/mimicdb_client.py:604-669 | the client accepts exactly the payloads that describe columns of known types |
| ScanCodec.DecodeColumn | client/mimicdb_client.py:670-697 | the values of one column, strings at their running offset |
| ScanCodec.BuildRows | client/mimicdb_client.py:698-709 | the rows in the order of the request |
| ScanCodec.ScanRoundTrip | client/mimicdb_client.py:604-709 | the wire columns of whatever rows a scan emits are well formed and decode to the same rows, nulls included, for every number of rows |
| ScanCodec.ScanResponse | server/mimicdb_server.cpp:4103-4168 | encoding, parsing and building rows in one: the client has the rows that the server found, and no row if there is no output column |
| EndToEnd.QueryOverWire | server/mimicdb_server.cpp:4028-4168 | from the table to the client: with any mix of stored forms the client has the rows that filter, drop and take leave of the rows that were appended; refused only for a predicate without a column |
| SecureChannel.ClientChannel.SendSecure | client/mimicdb_client.py:907-914 | a frame carries the key and the number of the sender, whose counter goes up |
| SecureChannel.ClientChannel.RecvSecure | client/mimicdb_client.py:916-928 | a frame is accepted if and only if it has the expected number and opens under the key |
| SecureChannel.ServerChannel.ReadSecureMessage | server/mimicdb_server.cpp:1854-1861 | likewise at the server |
| SecureChannel.AcceptedInOrder | client/mimicdb_client.py:916-928 | whatever a link delivers, also frames again or out of order: the frames that an end accepts carry its key and consecutive numbers, so that none is accepted twice |
| SecureChannel.StepKeeps | server/mimicdb_server.cpp:1683-1861 | every step of either end of any connection keeps the invariant: handshake, requests, refusal, closing of one end while the other goes on, and connecting again while the server still serves an old connection |
| SecureChannel.ClientReadsDecision | client/mimicdb_client.py:829-862 | the client's channel object makes the step of the model: verdict, counters, acknowledgement |
| SecureChannel.ServerDecides | server/mimicdb_server.cpp:1715-1811 | the server's channel makes its step: the frame with the literal number 0 before the counters are set |
| SecureChannel.ServerReadsNext | server/mimicdb_server.cpp:1812-1861 | likewise for every frame that the server reads with its counter |
| SecureChannel.ServerAnswers | server/mimicdb_server.cpp:4816-4838 | likewise for a response |
| SecureChannel.ClientReadsAnswer | client/mimicdb_client.py:711-757 | a waiting client goes on if and only if the frame has its key, its number, and the id and opcode of its request |
| SecureChannel.AlwaysInLockstep | server/mimicdb_server.cpp:1166-1194 | in every run, on every connection, each receiver's counter plus the frames in flight is the sender's counter, so no honest frame is refused |
| SecureChannel.NumberNeverReused | server/mimicdb_server.cpp:1501-1521 | in no run do two frames share a key and a number, although the handshake sends with literal numbers and sets the counters later |
| SecureChannel.ResponsesMatch | client/mimicdb_client.py:711-757 | a waiting client finds the response to its own request, which is under way exactly once while the server serves the connection |
| Permissions.LoadLog | server/mimicdb_server.cpp:5493-5517 | grants and revokes of a log, by owner, in the order of the rows |
| Permissions.CombineScopes | server/mimicdb_server.cpp:146-158 | a combined scope is never empty; it is that of the assignment unless that is everything, and then that of the role; it is "*" only if both are |
| Permissions.BuildPermissions | server/mimicdb_server.cpp:5567-5639 | the result is the fold of the steps in the order of the code |
| Permissions.PermissionsMean | server/mimicdb_server.cpp:5548-5639 | a key has a capability in a scope if and only if some step grants it (also through db.admin) and no later step revokes it with that scope or all scopes; no capability is left without a scope |
| Permissions.PermissionsExactly | server/mimicdb_server.cpp:5567-5639 | which permissions the logs give, without the steps: no dropped role lists the capability with that scope, and either a role grants it and neither it nor a later role revokes it, or the key's own log grants it and neither that log nor any role revokes it; a grant of db.admin includes six capabilities |
| Permissions.AdminRevokeKeepsCapabilities | server/mimicdb_server.cpp:5548-5586 | a key that was granted db.admin in a scope and lost it again keeps the six capabilities |
| Permissions.KeyLogHasNoOrder | server/mimicdb_server.cpp:5493-5517 | for a key without roles: if and only if some row grants it and no row, earlier or later, revokes it |
| Permissions.NeighboursCommute | server/mimicdb_server.cpp:5493-5517 | a grant row and a revoke row that are neighbours in the key-grant log may change places |
| Permissions.IsAuthorized | server/mimicdb_server.cpp:5641-5666 | authorized if and only if some granted scope covers the wanted one |
| Permissions.CoversExactly | server/mimicdb_server.cpp:5641-5666 | a granted scope covers itself, "*" covers all, and "database:d" covers "dataset:d.t" for every table t and every d without a dot, and nothing else is covered |
| SessionCache.Sessions.Expire | server/mimicdb_server.cpp:2207-2232 | exactly the expired sessions are removed |
| SessionCache.Sessions.ExpiredExactly | server/mimicdb_server.cpp:2210-2225 | a session expires when its limit and one more second are over, since whole seconds are compared with the limit |
| SessionCache.Sessions.Trim | server/mimicdb_server.cpp:2243-2251 | exactly the excess of a group is removed, and none of it was active more recently than a session of the group that stays |
| SessionCache.Sessions.LimitPerFingerprint | server/mimicdb_server.cpp:2234-2253 | every fingerprint is trimmed to its limit, independently of the order in which they come |
| SessionCache.Sessions.PruneSessionsLocked | server/mimicdb_server.cpp:2205-2268 | no expired session and no exceeded limit remains; each stage removes exactly its excess |
| SessionCache.Sessions.AddSession | server/mimicdb_server.cpp:2194-2198 | the same after every added session |
| ExactlyOnce.TableServer.HandleAppendBatch | server/mimicdb_server.cpp:2589-2710 | a batch whose id is known changes nothing; a failure to write comes after the rows are stored and before the id is |
| ExactlyOnce.RetryStoresOnceExactly | server/mimicdb_server.cpp:2694-2710 | after a failed append a retry stores the rows once if and only if the failure came before they were stored |
| ExactlyOnce.TableIsFirstDeliveries | server/mimicdb_server.cpp:2589-2592 | over every interleaving of deliveries each table is the concatenation of the distinct batches in the order of their first deliveries |
| ExactlyOnce.FirstIsAny | server/mimicdb_server.cpp:2589-2592 | each delivered batch is among them |
| ExactlyOnce.EveryBatchStoredExactly | server/mimicdb_server.cpp:2589-2592 | with ids other than 0, every batch that reaches a server is stored there if and only if an id stands for one batch at that server |
| ExactlyOnce.ClientIdsStoreAll | api/mimicapi/api_client.py:248-250 | fewer than 2^k batches of one client, and a clock that moves on above bit k wherever it moves on between two of them: all ids are distinct and not 0, and every batch that reaches a server is stored |
| ExactlyOnce.ZeroIdRepeats | server/mimicdb_server.cpp:2589-2592 | a batch without an id is stored at every delivery |
| ExactlyOnce.EqualIdsLoseBatch | api/mimicapi/api_client.py:248-250 | two appends three clock ticks apart get one id, and the second batch is answered as stored and dropped |
| ClockMix.ExclusiveOrBits | api/mimicapi/api_client.py:248-250 | the mixing of clock and counter is the exclusive or, bit by bit |
| ExactlyOnce.ApiClient.IsHealthy | api/mimicapi/api_client.py:137-144 | a failed server is healthy again if and only if its time is over, and the clock is read only then |
| ExactlyOnce.ApiClient.HealthyServers | api/mimicapi/api_client.py:272-272 | a registered name is contacted if and only if it is healthy or past its time at its clock reading, and none twice |
| ExactlyOnce.ApiClient.FirstRound | api/mimicapi/api_client.py:283-315 | with completions in any order every contacted server that has a transport is called once, until enough have acknowledged; the results say True for exactly the servers that did |
| ExactlyOnce.ApiClient.Retry | api/mimicapi/api_client.py:318-340 | one turn of a retry: a server is passed over if and only if it acknowledged before, has no transport, or is not usable at its clock reading, and otherwise called |
| ExactlyOnce.ApiClient.AppendBatchFanout | api/mimicapi/api_client.py:252-360 | a fan-out returns if and only if a server is usable and enough distinct ones acknowledge one of its calls: the quorum, or else more than half of those it contacted; before it fails it has called every contacted server with a transport and has dealt with every one in each of the permitted retries; the servers that acknowledged store the batch, whatever late calls do meanwhile; the log keeps the last 1024 batches |
| ExactlyOnce.ApiClient.ReplayFor | api/mimicapi/api_client.py:474-492 | the logged batches are sent in order until a call fails; the replay completes if and only if every call is acknowledged, and then the server has every logged batch |
| DocumentLog.ReaderTakesLastExactly | api/mimicapi/mongodb.py:543-564 | a reader settles on the last row of an id if and only if that row has the highest version |
| DocumentLog.Collection.LatestDocuments | api/mimicapi/mongodb.py:543-564 | the documents read are those of the dictionary that the operations define, in the order of their first rows |
| DocumentLog.ListedExactly | api/mimicapi/mongodb.py:543-564 | each live document once, and no deleted one |
| DocumentLog.OrderIsOfFirstRows | api/mimicapi/mongodb.py:555-564 | one id comes before another in the dictionary if and only if it has a row before every row of the other |
| DocumentLog.FallingVersionLosesUpdate | api/mimicapi/mongodb.py:149-151 | at every clock reading that leaves 2 when divided by 4 the first two versions are one more and two less than the clock, and the update is lost |
| DocumentLog.VersionsRise | api/mimicapi/mongodb.py:149-151 | fewer than 2^k calls, with a clock that moves on above bit k from call to call: the versions rise |
| DocumentLog.SteadyVersionsRise | api/mimicapi/mongodb.py:149-151 | such a clock exists: readings 2^k apart |
| DocumentLog.InferTypeExactly | api/mimicapi/mongodb.py:614-631 | a field gets a type if and only if its values are of one class, where integers and floats go together and None goes with all |
| DocumentLog.InferTypeMeans | api/mimicapi/mongodb.py:614-631 | the type that is found is that of any value of the field; one float makes a field of numbers a float field, and lists and dictionaries become JSON |
| DocumentLog.NothingHeld | api/mimicapi/mongodb.py:614-618 | a field that holds nothing but None is a float field |
| DocumentLog.Collection.InsertMany | api/mimicapi/mongodb.py:212-245 | all documents or none; refused if and only if a field is not in the schema, or the first documents mix classes of values in a field, or an id is live or given twice; the first documents fix the schema with its types |
| DocumentLog.AssignedAt | api/mimicapi/mongodb.py:223-230 | documents keep their ids, and those without take consecutive numbers of the counter |
| DocumentLog.Collection.Update | api/mimicapi/mongodb.py:473-510 | update, replace and upsert as operations on the dictionary: fails if and only if the change of a selected document fails, which includes fields that the schema does not know; otherwise the counts are the number of selected documents, each of them has its changed fields and every other document is as it was, if the change keeps ids; an upsert adds one document where nothing is selected and takes the place of a live document with the same id |
| DocumentLog.Collection.Delete | api/mimicapi/mongodb.py:512-521 | exactly the selected documents are gone, the order is as it was, and their number is reported |
| DocumentLog.UpdateIsPointwise | api/mimicapi/mongodb.py:496-510 | an update that leaves ids alone changes exactly its targets, each to its changed document |
| DocumentLog.RemoveAllMeans | api/mimicapi/mongodb.py:512-521 | a tombstoned id is absent and free for an insert; all other documents stay |
| DocumentLog.TargetsAreLive | api/mimicapi/mongodb.py:475-480 | the targets are live documents with distinct ids that match the filter |
| DocumentLog.TargetsExactly | api/mimicapi/mongodb.py:475-480 | with multi the targets are exactly the live documents that match; without it there is at most one, there is one if and only if some live document matches, and no other match comes before it in the order of the dictionary |
| PathLens.PathLookup | api/mimicapi/mongodb.py:933-946 | the loop of the lookup finds what the path leads to |
| PathLens.GetAfterSet | api/mimicapi/mongodb.py:949-972 | what is set can be looked up |
| PathLens.SetBuildsBranch | api/mimicapi/mongodb.py:949-972 | where nothing is, setting builds nested dictionaries with the parts of the path, also for parts that are digits |
| PathLens.SetExtendsList | api/mimicapi/mongodb.py:955-963 | an index behind the end of a list: empty documents fill the gap, and the new item is the last one |
| PathLens.SetFailsExactly | api/mimicapi/mongodb.py:949-972 | setting fails if and only if the path meets a list with a part that is no index, or starts at something that is no document |
| PathLens.SetLeavesOthers | api/mimicapi/mongodb.py:949-972 | every path that was there and diverges is unchanged; indices of a list are compared as numbers |
| PathLens.DeleteExactly | api/mimicapi/mongodb.py:975-994 | after deleting, the path is absent, except that the next item of a list moves to the same index |
| PathLens.DeleteLeavesOthers | api/mimicapi/mongodb.py:975-994 | deleting leaves the paths alone that diverge above the last part, or at the dictionary that holds it |
| PathLens.DeleteMovesItems | api/mimicapi/mongodb.py:975-994 | deleting an item of a list: the items below it stay, the items above it move down by one, with everything below them |
| PathLens.DeleteMissing | api/mimicapi/mongodb.py:975-994 | deleting a path that is not there changes nothing |
| PathLens.RenameMoves | api/mimicapi/mongodb.py:997-1002 | a rename that succeeds makes the new path yield the old value; if the new path diverges from the old one, the old one is gone from a dictionary, and in a list it shows the next item |
| PathLens.RenameLeavesOthers | api/mimicapi/mongodb.py:997-1002 | paths that lie apart from the old one and diverge from the new one are unchanged |
| PathLens.RenameMovesItems | api/mimicapi/mongodb.py:997-1002 | renaming an item of a list moves the items above it down by one |
| DocumentTree.Node.SetPath | api/mimicapi/mongodb.py:949-972 | on nested lists and dictionaries changed in place: the document becomes what the lens says, and a failure changes nothing |
| DocumentTree.Node.DelPath | api/mimicapi/mongodb.py:975-994 | likewise for deleting |

## Left out

- Sockets, files, fsync, threads and clocks: links are sequences, the disk is a map from file numbers to segments, the work of a thread is one step for each range, and clock readings, the outcomes of calls and the success of writes are parameters over which everything is proved.
- OpenSSL and randomness: encryption opens exactly under its own key and number; each connection has new keys; signatures and the exchange of the hellos are one step.
- Floats: infinities, NaN and the rounding of sums. A float64 column holds exact numbers, the values of its finite doubles.
- int64 as double: the server and the extension convert int64 values and zone maps to double, which is exact up to 2^53 only; the model compares exact numbers.
- Dictionary columns in compressed scans and in predicates (a null dictionary value of an LZ4 column emits one byte instead of four), vector, array and object columns.
- PackedForms.BuildView: a scan reads a packed column as the array of its numbers, which BuildView justifies; headers and ids are numbers and not bytes.
- Sealing.OnlyIntegersArePacked: the choice goes by exact numbers, where the engine has doubles, and by a hash that is any function.
- DatasetEngine.Dataset.AppendBatch: validity and values of a column are one list of cells; growth of the engine's vectors is not modelled.
- SegmentStore.DatasetState.Append: segment files are written and read back whole; the format of a file is not modelled. The sync of the server after a write is one outcome with the write.
- SegmentStore.DatasetState.DropCachedSegments: after a flush in the middle of a run the byte counter is no longer the size of the window, and nothing is promised about it.
- Scanner.Scan.Run: asks that, where a segment is compressed, nulls store no bytes, constants fit int64 without a fraction that matters, and bools are 0 or 1, and that plain string columns in an LZ4 scan belong to segments of at most 4096 rows, which is the capacity of every segment that the engine seals.
- Aggregation.QueryAggregate: dictionary columns, infinities and NaN are excluded, and so is a minimal compression ratio of 1 or less. A refusal for a predicate without a column may come before or after a crash of another thread.
- ExtensionQuery.DatasetAggregate: takes predicates as the parser leaves them, with int64 constants except for floats, and 0 or 1 for a bool; bool columns hold 0 and 1, which is what the extension stores; field names are indices.
- ExtensionQuery.DatasetScan: what C++ leaves undefined, the conversion to int32 of a constant that does not fit, is a parameter that yields some int32.
- AppendCodec.ParseAppend: the check of the batch id between the two halves of the parse is part of ExactlyOnce.TableServer; unknown type ids are parsed as the code does and left to the engine to refuse.
- ScanCodec.DecodeColumn: strings stay bytes; a response whose string is not UTF-8 is not modelled.
- SecureChannel.StepKeeps: every request gets one response, and 64-bit counters do not wrap; the plain replies to connections without a channel are left out.
- SecureChannel.ServerReadsNext: ReadSecureFrame also refuses a frame that is too long, which is left out.
- Permissions.BuildPermissions: works on the rows that the authorization tables hold in memory, in their order.
- ExactlyOnce.ApiClient.AppendBatchFanout: cancellation, latency figures and the log on disk.
- ExactlyOnce.TableIsFirstDeliveries: needs ids other than 0.
- ExactlyOnce.ApiClient.ReplayFor: replays the 1024 batches that the log keeps.
- DocumentLog.Collection.Update: filters and changes are functions; an exception of a change aborts the whole update; a fan-out always succeeds, and every read sees the replica that was written.
- DocumentLog.Collection.LatestDocuments: asks that the versions so far have risen, which _next_version does not promise. A field that a document lacks reads as None, and a string in a column of JSON is decoded again; neither is modelled.
- DocumentLog.Collection.InsertMany: ids are integers, and a value that does not fit the type of its column fails in the fan-out, which always succeeds here.
- DocumentTree.Node.SetPath: the value is not itself a part of the document; parts of a path are ASCII.
- PathLens.RenamePath: in place it would leave the old path deleted when the new one cannot be set.
- Quorum reads, vector search and its indexes, SQL, the pipeline stages of the document layer, configuration, licence checks and the command line.
