# mineSQL, modelled and verified in Dafny

mineSQL is a small SQL engine that keeps its data in Minecraft blocks: rows are strips of banners and
signs, the catalog is a line of barrels, and the write-ahead log is a line of lecterns. This project
models that engine over a finite map from block positions to bytes and proves what it promises: crash
safety of the log, multi-version reads, the layouts and codecs below them, and the wire protocol to
the server plugin.

How the modules build on each other:

- `GoText`, `World`: Go's string helpers, sealing and induction; the world as a map, and the block store
  `Hal` with a ghost record of every world it went through.
- `Codec`, `Signs`, `LogEntry`, `Layout`: how numbers, text, log entries and rows become blocks.
- `Wal`, `Recovery`: the log and its recovery, on any world, corrupt books included.
- `Store`, `MarkSteps`, `StorageCode`: the storage layer as functions of the world; a delete cut at its
  requests; the object that changes the world.
- `WriteSequence`, `Crash`, `Epochs`: log entry, data, commit; a crash at any write; any number of
  crashes and recoveries.
- `Refine`, `RefineDelete`, `Catalog`, `Vacancy`: blocks represent tables, each a list of row versions,
  and hold nothing else.
- `Query`, `Engine`, `Literals`: statements on blocks, on lists of versions, and over the literals a user
  wrote, single and in runs.
- `Comparisons`, `Meaning`, `Formats`: what the operators of WHERE, the statements and whole runs mean, and
  what stands in banners, books and packets, each said without the functions that compute it.
- `Streaming`, `ExecutorCode`: the scan that runs while DELETE marks rows; the executor's code.
- `Versions`, `CrashRuns`, `Safety`, `Restart`, `Failures`: what holds over whole runs, crashes and restarts
  among them, and runs that show what does not.
- `Concurrency`, `ConcurrentRuns`, `ConcurrentScans`, `ConcurrentCrash`: every interleaving of concurrent
  inserts, where they end, a scan among them, and a crash among them.
- `ByteSeq`, `Utf8`, `Protocol`, `ProtocolCode`: the binary protocol, the Java strings its data passes
  through, and its loops.
- `Plugin`, `Remote`, `Sent`, `Requests`, `RemoteRuns`: the plugin's handlers, the block store behind them,
  which blocks survive the way, and the engine run over it.

Bytes are characters of a `string` (the protocol uses numbers below 256); an absent block reads as "".
Integers are unbounded and their int32/int64 ranges are stated. What the code calls but this project does
not model are parameters. `encoding/json` (`Store.Json`) is assumed to write non-empty text without raw
newlines; where the catalog is read back, also to read back every row the engine can write but for strings
that are not UTF-8 (`Catalog.Rereads`); where the plugin is involved, also to write UTF-8. float64 conversion
and `strconv.ParseFloat` are parameters (`Query.Floats`), and so are the Java runtime and the Minecraft
server (`Utf8.Java`, `Plugin.Server`): how many malformed bytes one replacement character stands for, which
characters beyond ASCII are hex digits, whether a block keeps its string when it turns into a banner, and
which strings the server keeps at which positions. A HAL error is a crash. Some facts are sealed
(`GoText.Open`): they say no more and no less, but the verifier looks into them only where a proof asks it
to.

Results that differ from what one would expect of the code:

- A DELETE by transaction -1 of an undeleted row is lost when the crash comes right after its log entry,
  because the null sentinel decodes to -1; every other id is recovered (`Recovery.ReplayedXmax`,
  `Crash.DeleteIsAtomic`). `Failures.DeleteIsLost` is a run in which it happens. Both servers pass
  transaction 1 with every statement (internal/wire/server.go:94, internal/wire/chatserver.go:84), so other
  ids, -1 among them, reach the engine only from direct callers of Execute.
- An INSERT whose data never reached the world is not replayed, although the design document asks for
  it in its section on crash recovery; it is all or nothing (`Crash.InsertIsAtomic`).
- Text reads back as its stored form exactly when its first 48 stored bytes hold no other byte after a
  NUL (`Signs.TextThroughSign`, `Signs.NulTextIsMangled`).
- Through the plugin a block is acknowledged and comes back unchanged exactly when it is well-formed UTF-8
  and not a banner of twelve characters whose pairs do not parse as hex numbers: for those the handler
  throws, keeps nothing and drops the rest of the batch (`Remote.RemoteBlockSurvives`,
  `Sent.NotEveryBannerIsTaken`). Every banner of the engine is hex. A sign is well-formed exactly when no
  16-byte cut falls inside a character, so "a" and eight times "é" is lost (`Sent.SignSurvives`,
  `Sent.AccentedIsLost`), and over the plugin a run is mirrored exactly when none of its INSERTs is cut so
  (`RemoteRuns.RunIsMirrored`).
- A log entry with an empty new value cannot be read back (`LogEntry.RoundTrip`).
- The catalog is rebuilt exactly when it has at most 1024 tables, none has the empty name, and all names of
  tables, columns and types are UTF-8 (`Catalog.CatalogRebuild`, `Restart.RunRebuilds`,
  `Failures.NamelessIsLost`).
- An INSERT into a table of 10000 rows writes over the first slot of the next table, and the version that
  was there is lost unless it was the same transaction's own and undeleted (`Refine.OverflowDestroys`,
  `Refine.OverflowLoses`).
- After a crash among concurrent inserts a persisted LSN is issued again exactly when the persisted LSNs
  have a gap; any two inserts can leave one (`ConcurrentCrash.ReissueAfterCrash`,
  `ConcurrentCrash.EntryIsOverwritten`).

## Model

| member | source | states |
|---|---|---|
| `Codec.Int32RoundTrip` | internal/storage/codec.go:22-46 | every INT banner decodes to its value, wrapped to int32 as Go's conversion does |
| `Codec.Int64RoundTrip` | internal/storage/codec.go:48-79 | both banners of every int64 decode to it |
| `Codec.BoolRoundTrip` | internal/storage/codec.go:91-114 | BOOLEAN banners decode to their value |
| `Formats.Int32BannerBytes` | internal/storage/codec.go:22-30 | the digits of an INT banner: its four bytes, highest first, and two zeros, each masked |
| `Formats.Int64BannerBytes` | internal/storage/codec.go:48-56 | the digits of both banners of a BIGINT: its eight bytes, highest first, six and two, and four zeros |
| `Formats.BoolBannerBytes` | internal/storage/codec.go:91-101 | the digits of a BOOLEAN banner: one byte and five zeros |
| `Formats.MaskFlips` | internal/storage/codec.go:9-29 | the mask flips every other bit of a byte |
| `Codec.Int64NeverNull` | internal/storage/codec.go:81-89 | no number is written as the null sentinel |
| `Codec.NullReadsAsMinusOne` | internal/storage/codec.go:58-89 | decoded as a number the null sentinel is -1 |
| `Codec.MaskInPlace` | internal/storage/codec.go:22-30 | XORs a buffer in place, every byte once |
| `Codec.EncodeInt32` | internal/storage/codec.go:22-30 | the banner reads back as the value |
| `Codec.DecodeInt32` | internal/storage/codec.go:32-46 | the buffer code computes the specified decoding, malformed text included |
| `Codec.EncodeInt64` | internal/wal/wal.go:312-319 | the banners read back as the value and are not null |
| `Codec.DecodeInt64` | internal/wal/wal.go:321-341 | the buffer code computes the specified decoding, malformed text included |
| `Codec.EncodeBool` | internal/storage/codec.go:91-101 | the banner reads back as the value |
| `Codec.DecodeBool` | internal/storage/codec.go:103-114 | the buffer code computes the specified decoding |
| `Signs.TextThroughSign` | internal/storage/storage.go:673-687 | a text written to a sign reads back as itself up to 64 bytes, and as its first 61 bytes and "..." beyond, if and only if no byte of its first 48 other than NUL follows a NUL; NUL-free text always does |
| `Signs.LinesHoldText` | internal/storage/codec.go:116-158 | the four lines, each at most 16 bytes and full before the next begins, hold the text up to 64 bytes, else its first 61 bytes and "..." |
| `Signs.CutTwice` | internal/storage/codec.go:116-158 | stored forms have at most 64 bytes, exactly 64 when cut, and store as themselves |
| `Signs.ReadingDropsNuls` | internal/storage/storage.go:677-687 | reading a sign deletes its first three NULs, whoever wrote them |
| `Signs.NulTextIsMangled` | internal/storage/codec.go:116-162 | a text with a NUL that does not come back |
| `Signs.EncodeText` | internal/storage/codec.go:116-158 | the line loop makes four such lines, holding the text or its first 61 bytes and "..." |
| `Signs.DecodeSignData` | internal/storage/storage.go:677-687 | four lines whose concatenation is the text read |
| `LogEntry.RoundTrip` | internal/wal/wal.go:217-310 | an entry with one-line op and status and a newline-free value reads back exactly, over any number of pages, unless the value is empty |
| `LogEntry.HeaderRoundTrip` | internal/wal/wal.go:217-310 | whatever the new value holds, a rewritten entry reads back with all other fields, or not at all |
| `LogEntry.ParsedIsOneLine` | internal/wal/wal.go:237-310 | what any book parses to can be written again |
| `Formats.BookText` | internal/wal/wal.go:217-235 | the text of a log entry, label by label |
| `Formats.BookIsRead` | internal/wal/wal.go:237-310 | any book is an entry exactly when it has four pages and a number behind every label of the first three that wants one |
| `Formats.DecimalTexts` | internal/wal/wal.go:217-222 | numbers as %d writes them |
| `Formats.NumberTexts` | internal/wal/wal.go:247-261 | which texts ParseInt reads, and which it refuses |
| `LogEntry.SerializeEntry` | internal/wal/wal.go:217-235 | the page loop builds the specified book |
| `LogEntry.DeserializeEntry` | internal/wal/wal.go:237-310 | the page and line loops parse as specified, errors included |
| `Wal.Log.Append` | internal/wal/wal.go:51-71 | takes the next LSN and persists exactly one PENDING entry |
| `Wal.Log.Commit` | internal/wal/wal.go:73-100 | rewrites a readable PENDING entry as COMMITTED, otherwise fails and changes nothing |
| `Wal.Log.ReplayUpdateXmax` | internal/wal/wal.go:174-203 | writes the xmax banners when they decode to something else |
| `Wal.Log.RecoverEntry` | internal/wal/wal.go:122-170 | one turn of the scan does what Handle says, write by write |
| `Wal.Log.Recover` | internal/wal/wal.go:102-172 | terminates on every world, deals with exactly the gap-free run of entries, and leaves nextLSN past it |
| `Wal.LogLengthIsFirstGap` | internal/wal/wal.go:103-122 | the run of lecterns from Z=-1 is maximal |
| `Wal.ScanEnds` | internal/wal/wal.go:103-122 | although recovery rewrites the world it scans, it meets the first empty lectern where it was |
| `Recovery.RecoveryIsIdempotent` | internal/wal/wal.go:102-203 | one more recovery changes no block, on any world |
| `Recovery.RecoveryIsRestartable` | internal/wal/wal.go:102-203 | stopped after any of its writes and rerun, recovery reaches the same world and next LSN |
| `Recovery.AnyInterruptions` | internal/wal/wal.go:102-203 | the same for any number of interrupted recoveries |
| `Recovery.RecoveryFootprint` | internal/wal/wal.go:160-199 | only lecterns of the run and blocks at X=2 and X=3 can change |
| `Recovery.ReplayedXmax` | internal/wal/wal.go:174-203 | whatever the banners held, storage reads the logged id after the replay, except -1 over null |
| `Layout.CursorsFindColumn` | internal/storage/storage.go:436-489 | for every schema the two read cursors find each column's own blocks |
| `Layout.ColumnPlace` | internal/storage/storage.go:218-256 | each column's banners stand behind those of the columns before it, its sign behind all banners and the signs before it |
| `Formats.BlocksByType` | internal/storage/storage.go:221-256 | one banner for INT and BOOLEAN, two for BIGINT, one sign for TEXT, nothing for other types |
| `Formats.StripBegins` | internal/storage/storage.go:207-217 | a strip begins with its transaction and two null sentinels |
| `Formats.StripGoesOn` | internal/storage/storage.go:218-256 | behind them stand the blocks of the columns |
| `Layout.LayoutInverse` | internal/storage/storage.go:207-256 | decoding a written strip gives writer, no deleter, and every column's stored value |
| `Layout.CollectedUnderOrdinal` | internal/storage/storage.go:436-489 | each value is filed under its column's ordinal and nowhere else |
| `Layout.ComputeStripWidth` | internal/storage/storage.go:387-400 | the width counted is that of the strip written |
| `Layout.BuildStripWrites` | internal/storage/storage.go:207-256 | the two write passes fill X = 0 to width-1, each once, with the strip |
| `Layout.DecodeStripBlocks` | internal/storage/storage.go:411-492 | the single pass with two cursors computes the specified row, or fails where it fails |
| `World.PutStrip` | internal/hal/mock/mock.go:72-79 | a batch of strip writes changes exactly the strip |
| `World.Hal.BatchRead` | internal/hal/mock/mock.go:51-66 | the bytes at each position asked for |
| `World.Hal.BatchWrite` | internal/hal/mock/mock.go:72-79 | the writes in order, empty data clearing a block |
| `StorageCode.Storage.InsertRow` | internal/storage/storage.go:194-277 | takes the next slot and goes through the specified worlds: entry, strip, commit |
| `StorageCode.Storage.SeqScan` | internal/storage/storage.go:279-341 | the rows a transaction sees, in slot order |
| `StorageCode.Storage.ReadSlot` | internal/storage/storage.go:297-336 | one slot: the row if it decodes and is visible |
| `StorageCode.Storage.MarkDeleted` | internal/storage/storage.go:343-385 | entry, two xmax banners, commit; fails without them and changes nothing |
| `StorageCode.Storage.CreateTable` | internal/storage/storage.go:126-181 | the new state, one catalog block and one table, or an unchanged one for a duplicate |
| `StorageCode.Storage.LoadCatalog` | internal/storage/storage.go:71-124 | the tables and counters read from the catalog blocks |
| `StorageCode.IsEmptyStrip` | internal/storage/storage.go:402-409 | true exactly when every block is empty |
| `WriteSequence.SequenceCommits` | internal/storage/storage.go:263-274 | Commit finds the statement's own pending entry |
| `WriteSequence.SequenceKeepsQuiet` | internal/storage/storage.go:263-274 | a finished operation leaves a gap-free log that needs no recovery |
| `Crash.InsertIsAtomic` | internal/storage/storage.go:263-274 | stopped at any write and recovered, every slot of every table reads as before the INSERT, or every slot as after it |
| `Crash.CrashInDelete` | internal/storage/storage.go:364-382 | a persisted UPDATE_XMAX is completed by recovery and nothing else changes |
| `Crash.DeleteIsAtomic` | internal/storage/storage.go:364-382 | stopped at any write and recovered, every slot reads as before the DELETE or every slot as after it, by any transaction; as after it once the entry is persisted, but for id -1 over an undeleted row |
| `Crash.MinusOneIsLost` | internal/wal/wal.go:174-203 | the exception, id -1, is real |
| `Epochs.ActionStep` | internal/wal/wal.go:51-172 | every HAL write of statements and recoveries keeps the log invariant |
| `Epochs.EntriesOnlyCommit` | internal/wal/wal.go:73-170 | over any run of crashes and recoveries a persisted entry is overwritten only by its committed form |
| `Epochs.NoLsnTwice` | internal/wal/wal.go:51-121 | no persisted LSN is issued again |
| `Epochs.EmptyWorldStarts` | internal/wal/wal.go:42-44 | an engine on a world without blocks satisfies the log invariant that every run keeps |
| `Epochs.RecoveryIsAdvances` | internal/wal/wal.go:102-172 | left to run on any world, the recovery of this system ends in the world and at the LSN where Recover ends |
| `Refine.InsertRefines` | internal/storage/storage.go:194-277 | INSERT on blocks appends one version to the table's list and changes no other |
| `Refine.RegionSeparation` | internal/storage/storage.go:361-364 | log, catalog and row blocks never coincide, whatever their numbers, and the table id computed from Z is the owner's |
| `Refine.BoundIsExact` | internal/storage/storage.go:196-197 | the table id computed from Z is right exactly for the first 10000 rows |
| `Refine.SlotsRunOver` | internal/storage/storage.go:194-197 | slot 10000 + r of a table is slot r of another exactly when that is the table created next |
| `Refine.OverflowDestroys` | internal/storage/storage.go:194-197 | an INSERT into a full table makes the next table's first slot read as written by its transaction and undeleted, with equal columns as exactly its row |
| `Refine.OverflowLoses` | internal/storage/storage.go:194-197 | a version that was there, other than this transaction's own and undeleted, is not read there afterwards |
| `RefineDelete.DeleteRefines` | internal/executor/executor.go:156-182 | DELETE on blocks always succeeds and marks exactly the matching versions |
| `RefineDelete.SelectRefines` | internal/storage/storage.go:279-341 | scanning and filtering blocks is filtering the list, in insertion order |
| `Catalog.CreateRefines` | internal/storage/storage.go:126-181 | CREATE TABLE adds one empty table and disturbs none |
| `Catalog.CatalogRebuild` | internal/storage/storage.go:71-124 | LoadCatalog restores tables and counters if and only if there are at most 1024 tables, none is named "", and all names are UTF-8; for columns as CREATE TABLE makes them |
| `Query.IntegersCompareExactly` | internal/executor/executor.go:248-310 | on integers up to 2^53 the six operators are =, !=, <, >, <= and >= of the integers |
| `Comparisons.NumberOperators` | internal/executor/executor.go:275-310 | on numbers, texts that parse as one included, the six operators are those of floats, NaN and the infinities included |
| `Comparisons.TextOperators` | internal/executor/executor.go:261-328 | on texts that are not both numbers "<" holds exactly when the first is a proper prefix or smaller at the first difference, and the others accordingly; other literals compare as printed |
| `Comparisons.OtherComparisons` | internal/executor/executor.go:248-274 | NULL meets "=" with NULL and "!=" with everything else; booleans in a row and unknown operators meet nothing |
| `Comparisons.ComparisonIsMeant` | internal/executor/executor.go:248-328 | together: for any two values and any operator the comparison holds exactly when Related says so |
| `Query.OperatorsAgree` | internal/executor/executor.go:248-328 | short of NaN the six operators are consistent; booleans compare with nothing |
| `Query.ColumnMapIsExact` | internal/executor/executor.go:185-191 | distinct names map to their own columns and to no other |
| `Query.BuildColumnMap` | internal/executor/executor.go:185-191 | the loop builds that map |
| `Query.EvaluateWhere` | internal/executor/executor.go:226-246 | true exactly when every condition names a column and holds |
| `Query.KeepIgnoresVersions` | internal/executor/executor.go:226-246 | WHERE never depends on xmin or xmax |
| `Query.ResolvesAll` | internal/executor/executor.go:193-208 | known distinct names resolve one for one, in the order asked |
| `Query.ResolveOutputColumns` | internal/executor/executor.go:193-208 | the nested loops find the first column of each name |
| `Query.EveryColumnGetsItsValue` | internal/executor/executor.go:76-89 | an INSERT with distinct names, listed or implied, hands each named column its own value |
| `Query.TypesByName` | internal/executor/executor.go:368-383 | each SQL type name gives its type, the float names FLOAT, and any other name itself |
| `Query.TypeNamesAreStable` | internal/executor/executor.go:368-383 | a normalized type name normalizes to itself |
| `Engine.StatementRefines` | internal/executor/executor.go:28-183 | each statement answers as its specification on lists and keeps the blocks representing them |
| `Engine.RunRefines` | internal/executor/executor.go:28-183 | the same after every run from an empty world, within 10000 rows per table |
| `Engine.InsertShowsValues` | internal/executor/executor.go:65-96 | by the SQL type of its column, a value given by listed or implied name is held as the integer, boolean or text it is, text beyond 64 bytes as 61 and "..." |
| `Literals.StoredIsShown` | internal/executor/executor.go:76-93 | what the blocks give back after an INSERT that gives every column a value of its type is the row of its literals |
| `Literals.RunShowsLiterals` | internal/executor/executor.go:28-183 | in every run of such INSERTs each statement, executed on blocks, answers as the list specification does over tables of literals; `Meaning.LiteralsAreMeant` says what those answers are |
| `Meaning.WhereIsMeant` | internal/executor/executor.go:226-246 | a row is kept if and only if every condition names a column and is Related to the value under the last column of that name |
| `Meaning.ScanIsMeant` | internal/storage/storage.go:279-336 | a scan of stored versions gives exactly those created at or before its transaction and not deleted at or before it, each from its own slot and in slot order |
| `Meaning.ColumnsAreMeant` | internal/executor/executor.go:43-63 | CREATE TABLE makes one column for each specified, in order, with the type its SQL name stands for |
| `Meaning.StorageIsMeant` | internal/storage/codec.go:22-162 | what a column of each type shows of each kind of value it is given, conversions included |
| `Meaning.InsertIsMeant` | internal/executor/executor.go:65-96 | an INSERT appends one undeleted version in which every column holds the last value given to its name, or to "c" and its ordinal, or NULL, as its type stores it |
| `Meaning.SelectIsMeant` | internal/executor/executor.go:98-141 | the answer has the first column of each known name asked for, or all, under its name and type, and of exactly the versions seen and met by WHERE, in order, at each place the value under that column |
| `Meaning.DeleteIsMeant` | internal/executor/executor.go:143-183 | exactly the versions seen and met by WHERE get the transaction for their deleter, and the answer counts them |
| `Meaning.InsertIsLoggedAs` | internal/storage/storage.go:258-266 | the entry of an INSERT names its transaction, its table by the order of creation, and the slot its row goes to |
| `Meaning.DeleteIsLoggedAs` | internal/storage/storage.go:357-369 | the entry of a DELETE names its transaction, the slot it marks, and, computed from Z alone, that slot's table |
| `Meaning.NamesAsAsked` | internal/executor/executor.go:193-208 | names that are all columns are answered one for one, in the order asked |
| `Meaning.RunIsMeant` | internal/executor/executor.go:28-183 | every run on blocks has a history of tables, empty at first, in which each answer and each change are what the statement means; no function of the engine or of its list specification is in that meaning |
| `Meaning.LiteralsAreMeant` | internal/executor/executor.go:28-183 | with complete INSERTs that history is the tables of the literals inserted |
| `Meaning.InsertIsSelected` | internal/storage/storage.go:534-546 | in any run, after an acknowledged INSERT and without a DELETE from the table between, a SELECT by the same or a later transaction shows the version if and only if WHERE holds of it |
| `Meaning.LiteralIsSelected` | internal/executor/executor.go:98-141 | and without WHERE its answer has a row that shows, under each column asked for, the literal it was given |
| `Streaming.DeleteFootprint` | internal/executor/executor.go:161-180 | DELETE changes xmax banners of matching rows and its own log entries, nothing else |
| `Streaming.MidMarkReads` | internal/storage/storage.go:288-336 | at any HAL request of any mark, a slot not yet scanned reads as before the statement |
| `StorageCode.Storage.StepMark` | internal/storage/storage.go:343-385 | MarkDeleted one HAL request at a time, and where it stands after each |
| `Streaming.StreamEnds` | internal/executor/executor.go:161-182 | the streaming loop ends where marking all matches of the first scan would |
| `Streaming.TraceEnds` | internal/executor/executor.go:161-182 | whatever the interleaving, the writes go through the worlds of marking one match after the other |
| `ExecutorCode.Executor.ScanAndMark` | internal/executor/executor.go:156-182 | for every interleaving with the scan goroutine, at every single HAL request, the loop marks all matches of the world it started from, counts them, and goes through the same worlds |
| `ExecutorCode.Executor.ExecuteInsert` | internal/executor/executor.go:65-96 | answer, new state and worlds written are the specified ones |
| `ExecutorCode.Executor.ExecuteSelect` | internal/executor/executor.go:98-141 | the answer is the specified one |
| `ExecutorCode.Executor.ExecuteDelete` | internal/executor/executor.go:143-183 | answer and new state are the specified ones |
| `ExecutorCode.Executor.ExecuteCreateTable` | internal/executor/executor.go:43-63 | answer and new state are the specified ones |
| `ExecutorCode.Executor.Execute` | internal/executor/executor.go:28-41 | every statement, unsupported ones included: the specified answer, state, and sequence of worlds written |
| `ExecutorCode.Executor.Run` | internal/executor/executor.go:28-41 | a session on a fresh engine gives the answers, the final state and the worlds of the run |
| `Versions.RunAges` | internal/executor/executor.go:162-180 | over any run creators and values never change, deleters are set once or replaced by smaller ones, and no version is deleted before it is created |
| `Versions.StripsAge` | internal/storage/storage.go:369-374 | the same for the rows the blocks decode to |
| `Versions.SnapshotStability` | internal/storage/storage.go:534-546 | whatever runs with larger ids, SELECT at t answers the same |
| `Versions.DeleteRemovesExactly` | internal/executor/executor.go:161-180 | afterwards the deleter sees exactly the versions that did not match, and a repeat matches none |
| `Versions.DeleteConserves` | internal/executor/executor.go:143-183 | the same on blocks, and the count is the difference |
| `CrashRuns.CrashInStatement` | internal/storage/storage.go:263-274 | a statement stopped at any write and recovered leaves every version as before or as after it |
| `CrashRuns.CrashInRun` | internal/executor/executor.go:28-183 | the same anywhere in any run: acknowledged versions survive |
| `CrashRuns.TraceIsMidway` | internal/storage/storage.go:263-274 | every world the code leaves behind one of its writes is among those the crash results speak of |
| `CrashRuns.TraceAppends` | internal/storage/storage.go:263-274 | a statement only adds to the worlds written before it |
| `Safety.CrashSafety` | internal/wal/wal.go:102-215 | stop a session after any of its writes and recover: every version acknowledged by earlier statements is there, untouched or marked by the statement that was running, and of the slots without a version all are empty but that of a running INSERT, which reads as its row or as none |
| `Restart.CatalogIsMeant` | internal/storage/storage.go:71-124 | on any world, damaged ones included, LoadCatalog finds the tables its blocks describe up to the first empty one, the last of one name counting, the largest number, and where to go on |
| `Restart.RunRebuilds` | internal/storage/storage.go:71-124 | after any run LoadCatalog restores the tables if and only if they are Restorable |
| `Restart.RestartAfterCrash` | internal/storage/storage.go:71-124 | stop a session after any of its writes, recover and load the catalog: it is as before the statement that was running or as after it |
| `Failures.DeleteIsLost` | internal/wal/wal.go:174-203 | a run, a DELETE by transaction -1 and a crash after which the row is not deleted |
| `Failures.NamelessIsLost` | internal/storage/storage.go:506-532 | CREATE TABLE with an empty name is acknowledged and not rebuilt |
| `Vacancy.RunIsTidy` | internal/storage/storage.go:194-197 | after any run no block lies in the table region outside a row |
| `Concurrency.SoloIsInsertRow` | internal/storage/storage.go:194-277 | an uninterrupted call of the concurrent machine is InsertRow |
| `Concurrency.StepKeepsInv` | internal/storage/storage.go:194-277 | any step of any call keeps the invariant and writes only blocks of its own |
| `Concurrency.InsertsDoNotInterfere` | internal/storage/storage.go:194-277 | in every interleaving slots and LSNs are distinct, no block is shared, no call fails to commit |
| `Concurrency.FindsOwnEntry` | internal/wal/wal.go:73-100 | the book a call reads back is its own pending entry |
| `Concurrency.StripOnlyWithEntry` | internal/storage/storage.go:263-269 | at every moment a block of a call's strip is there only if its log entry is |
| `Concurrency.ScansSeeWholeRows` | internal/storage/storage.go:297-336 | a scan at any moment finds a call's whole row or nothing |
| `Concurrency.AllReturned` | internal/storage/storage.go:194-277 | when all have returned, all strips are in place, all entries committed, and the log is gap-free |
| `ConcurrentRuns.ConcurrentInsertsRefine` | internal/storage/storage.go:194-277 | after any serial run and any interleaving of any inserts, the blocks represent the tables with the new rows appended in slot order |
| `ConcurrentRuns.EveryInsertIsThere` | internal/storage/storage.go:194-200 | no insert is lost or doubled: each row stands at the slot its call took |
| `ConcurrentScans.ScanAmongInserts` | internal/storage/storage.go:279-336 | a scan that reads every slot at a moment of its own, with any steps of the inserts between, gives all visible old rows and behind them, in slot order, exactly the visible new rows whose strips were written when it came by, each whole |
| `ConcurrentScans.ReturnedIsFound` | internal/storage/storage.go:279-336 | an insert that had returned when the scan began is among them if its transaction is visible |
| `ConcurrentCrash.ReissueAfterCrash` | internal/wal/wal.go:51-57 | crash any interleaving at any moment: no persisted LSN is issued again if and only if the persisted LSNs have no gap |
| `ConcurrentCrash.CrashAmongInserts` | internal/wal/wal.go:102-215 | crash any interleaving at any moment and recover: old slots read as before the calls, each call's slot as its whole row exactly when its strip was written and else as none, and no other slot as a row |
| `ConcurrentCrash.OldVersionsSurvive` | internal/wal/wal.go:102-215 | so every version of the serial run before them is still read |
| `ConcurrentCrash.EntryIsOverwritten` | internal/wal/wal.go:114-121 | an interleaving of two inserts after which recovery restarts below a persisted entry and a later Append writes over it |
| `Utf8.ThroughString` | minesql-hal/src/main/java/dev/swapnil404/minesqlhal/BlockHandler.java:185-193 | bytes survive a Java string exactly when they are well-formed UTF-8, whatever replaces malformed input |
| `Formats.ScalarBytes` | minesql-hal/src/main/java/dev/swapnil404/minesqlhal/BlockHandler.java:399-410 | characters of one to four bytes |
| `Protocol.BatchWriteRoundTrip` | minesql-hal/src/main/java/dev/swapnil404/minesqlhal/BlockHandler.java:175-193 | the plugin decodes the list the client encoded, coordinates narrowed to int32 and data as strings, consuming the payload; a string gives its data back exactly when that was well-formed |
| `Protocol.BatchReadRoundTrip` | minesql-hal/src/main/java/dev/swapnil404/minesqlhal/BlockHandler.java:139-151 | the plugin decodes exactly the positions asked for |
| `Protocol.BatchDataRoundTrip` | internal/hal/client.go:379-402 | the client parses the plugin's answer to the bytes of its strings, consuming the payload |
| `Protocol.StreamIsCutRight` | internal/hal/client.go:298-340 | a stream of packets is cut back into those packets |
| `Formats.WriteBytes` | internal/hal/client.go:195-213 | a write on the wire, byte by byte |
| `Formats.FrameBytes` | internal/hal/client.go:303-307 | a packet, byte by byte |
| `ProtocolCode.EncodeBatchWrite` | internal/hal/client.go:195-213 | the loop over the buffer fills it with a count and every write, each behind the one before |
| `ProtocolCode.EncodeBatchRead` | internal/hal/client.go:123-131 | the loop over the buffer fills it with a count and every position |
| `ProtocolCode.Send` | internal/hal/client.go:303-307 | the packet built is the specified frame |
| `ProtocolCode.DecodeBatchWrite` | minesql-hal/src/main/java/dev/swapnil404/minesqlhal/BlockHandler.java:175-193 | the loop decodes coordinates, types and strings as specified and rejects every malformed payload |
| `ProtocolCode.DecodeBatchRead` | minesql-hal/src/main/java/dev/swapnil404/minesqlhal/BlockHandler.java:139-151 | the loop decodes the positions as specified and rejects every malformed payload |
| `ProtocolCode.WriteBatchData` | minesql-hal/src/main/java/dev/swapnil404/minesqlhal/BlockHandler.java:399-423 | the strings are encoded and the length announced is that of the packet written |
| `ProtocolCode.ParseBatchDataResponse` | internal/hal/client.go:379-402 | the loop parses as specified and rejects every truncated payload |
| `Remote.RemoteBatchWrite` | minesql-hal/src/main/java/dev/swapnil404/minesqlhal/BlockHandler.java:175-233 | a batch write to different blocks through client, connection and plugin is acknowledged and does to what the client sees of the world what the block store does, if and only if every write is Sendable |
| `Remote.BatchStops` | minesql-hal/src/main/java/dev/swapnil404/minesqlhal/BlockHandler.java:197-233 | a batch stops at the first write its handler does not take: those before it are placed, those behind it are not, its own block is left or emptied |
| `Remote.RemoteBlockSurvives` | minesql-hal/src/main/java/dev/swapnil404/minesqlhal/BlockHandler.java:60-107 | a block written through the connection is acknowledged exactly when the handler takes its string, and comes back unchanged exactly when moreover its data is well-formed UTF-8, for every block type |
| `Remote.RemoteRead` | minesql-hal/src/main/java/dev/swapnil404/minesqlhal/BlockHandler.java:109-137 | a read brings back what the client sees at the position |
| `Remote.RemoteBatchRead` | minesql-hal/src/main/java/dev/swapnil404/minesqlhal/BlockHandler.java:139-173 | a batch read brings back exactly the bytes of the strings at the positions asked for |
| `Sent.SignSurvives` | internal/storage/codec.go:116-158 | a text survives the plugin as a sign exactly when each of its lines is well-formed |
| `Sent.AccentedIsLost` | internal/storage/codec.go:116-158 | a well-formed text whose sign is not |
| `Sent.HexIsTaken` | minesql-hal/src/main/java/dev/swapnil404/minesqlhal/BlockHandler.java:284-313 | a text of hex digits survives as a banner, of twelve characters or not |
| `Sent.BannersAreHex` | internal/storage/codec.go:22-101 | every banner of a row is such a text |
| `Sent.NotEveryBannerIsTaken` | minesql-hal/src/main/java/dev/swapnil404/minesqlhal/BlockHandler.java:301-313 | twelve letters for which the plugin throws |
| `Sent.BookSurvives` | internal/wal/wal.go:217-235 | a log entry survives exactly when no page boundary falls inside a character |
| `Sent.DeleteSurvives` | internal/storage/storage.go:361-376 | log entries of deletes are well-formed and their banners are sent |
| `Sent.InsertSendable` | internal/storage/storage.go:207-256 | the batch of an inserted row is sent whole if and only if each TEXT value keeps its characters within the lines of its sign |
| `Requests.RequestsAreTraced` | internal/storage/storage.go:263-274 | the writing requests of a statement, with their block types, go through exactly the worlds the code goes through |
| `RemoteRuns.MirrorsWhole` | internal/hal/client.go:76-232 | of any sequence of requests the plugin acknowledges each and shows the block store's world behind each, if and only if each is whole |
| `RemoteRuns.StatementWhole` | internal/storage/storage.go:207-274 | the requests of a statement are whole if and only if no TEXT value of an INSERT is cut inside a character by a line of a sign, nor its logged values by a page |
| `RemoteRuns.RunIsMirrored` | internal/executor/executor.go:28-183 | the engine over the plugin: behind every write of a run the client sees the block store's world if and only if no INSERT of the run is cut so |
| `RemoteRuns.WorldsAreTraced` | internal/storage/storage.go:263-274 | those worlds are the ones a run of the code goes through |

## Left out

- SQL text: statements start as parsed values (internal/parser/parser.go walks a syntax tree of an outside library).
- Tables after a restart: LoadCatalog sets row counts to 0, so later scans miss old rows; crash results speak of blocks right after recovery and of the tables' definitions.
- Replay of a lost INSERT: the code does not do it, so only all-or-nothing is stated.
- More than 10000 rows per table: the code has no check; the bound is a hypothesis of the run and concurrency results, and `Refine.OverflowDestroys` says what the next row does.
- Engine.RunRefines: runs are bounded so that log and table counters stay within int64, which the code does not check.
- Concurrent DELETEs, and going on after a HAL error: serial statements, and inserts and scans that run concurrently.
- Query.OperatorsAgree: rounding of integers beyond 2^53 and the grammar of ParseFloat are parameters.
- Protocol.BatchWriteRoundTrip: packets of 2^31 bytes and more, which Java cannot receive.
- Codec.DecodeInt32: Go returns an error value; here malformed text is None.
- JSON: its text is a parameter.
- FLOAT columns: the code has no encoding for them, so they hold nothing and read as NULL; NULL itself is stored as 0, false or "" (`Meaning.StorageIsMeant`).
- Values that are float64, int or int32 literals: the parser gives only int64, string, bool and nil.
- Chunk loading and IsChunkLoaded: no effect on the block store.
- Java strings with lone surrogates: strings that come from bytes have none; they are sequences of Unicode scalar values here, and UTF-16 units where the plugin counts them.
- What a Minecraft server cannot keep: positions beyond its world's limits and strings too long to be saved are shut out by `Plugin.Server.holds` in the hypotheses of the results about the plugin.
- Block types: `World.BlockWrite` has none; `Requests` and `Sent.StripKinds` add those the code gives.
- Recovery and LoadCatalog over the plugin: `RemoteRuns` follows the statements of a session; reads are exact for any world the plugin keeps.
- Bit operations of readInt32: modelled as big-endian arithmetic with the sign of a Java int.
- Sockets, reconnecting, deadlines, the Postgres and chat servers, what blocks look like, logging.
