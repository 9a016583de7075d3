# xvec: storage, queries and kernels, verified

A Dafny model of the parts of xvec whose correctness rests on more than one function, with proofs about
every input, every run or every reachable state. `dafny verify dfyconfig.toml` checks all of it.

## What is modelled

**The collection store** (`Keys`, `Segments`, `Managers`, `Runs`, `Stores`, `Recovery`, `Rewrites`). A map from
primary key to payload is held as immutable segments, one write segment, an IDMap, a delete set and a
write-ahead log; the durable copy is a manifest naming a checkpoint. Each operation is a function from
store to store; the environment's choices (a refused or torn append, a failed sync, an aborted
publication, where a crash cuts the log) are arguments. The invariant says that memory is what recovery
would compute from disk. `CollectionStores` is the store as a class whose methods update its fields and are
proved against those functions.

**Compaction** (`Compactions`, `CompactionProofs`, `CompactionHandles`, `Optimization`). Begin, Prepare and Commit with
arbitrary writes, deletes, flushes, schema changes and rewrites in between, as a relation that every step
keeps, and as a handle class. Purging is shown to commute with replay.

**Whole runs** (`Histories`, `Durability`, `Acceptance`, `SegmentIDs`, `Iterators`). Any sequence of events, crashes included, refines an abstract
append-only log with a durable mark; every crash recovers a prefix of it; IDs are never reused; iterators
are stable because no step that drops documents can run beside them. How many acknowledged changes a crash can
lose is bounded by the sync interval, and every operation has an exact condition for going through.

**Queries** (`Filters`, `Runtimes`, `FlatIndexes`, `Budgets`). The fast filter evaluation and the direct one meet one
specification that leaves nothing observable open. Reference counts of segment runtimes are exact over
all interleavings with lease releases. The shared, growing Flat index shows each lease its own
documents. Admission neither leaks nor loses a wake-up.

**Kernels** (`Snowball`, `Jieba`, `Tagging`, `Cutting`, `Rescaling`, `Columns`, `Expressions`, `Bitmaps`, `LittleEndian`,
`WriteOperations`, `Documents`, `Texts`). Longest match by binary search with remembered prefixes, maximum-weight
segmentation and Viterbi tagging, the RaBitQ event sweep, column expressions and their parser, the
two-representation bitmap, and the operation and document codecs. `Common` holds what several modules share.

## How to read the statements

* A preparation that failed after writing some replacements and is then retried leaves both sets of
  outputs behind; its commit refuses them as overlapping. `CompactionProofs.CommitKeeps` states exactly
  when a commit succeeds, this case included.
* The weighted segmentation compares totals with a floor, -3.14e100. `Jieba.CutMP` is optimal whenever every
  later position has some split above the floor; `Jieba.OrdinaryWeightsAreAbove` says that it is whenever no
  weight is below -1e6, and no finite logarithm of a frequency is. Tagging is optimal exactly when some tagging that ends a word is above it, for logarithms of
  probabilities (at most 0).
* A log that is reopened starts counting unsynced records at zero, as the source does, whatever it recovered: the
  records it kept beyond the mark of the last sync are a backlog that stays until the next sync. `Durability` states
  both parts.
* Guards of among entries are functions of entry and cursor that return a verdict and where they leave
  the cursor.
* Floating point is exact real arithmetic in `Jieba`, `Tagging`, `Rescaling`, `Columns` and `Filters`; the square root
  in the RaBitQ objective is avoided by comparing squares (`Rescaling.ScoreOrder`). Codecs carry floating
  values as bit patterns and check finiteness on the bits.
* Checksums are any function of the bytes they cover.
* Lookups the source guards with internal-error returns that cannot be reached (a missing live mask, a
  live document without a row, an invalid word range) are shown to succeed instead of being modelled as
  errors.
* The library's heap, sort, set of Roaring containers and channels appear as their contracts: least event
  first, sorted order, a set, numbered channels that are open or closed.

## Model

| member | source | states |
|---|---|---|
| Managers.ValidateState | internal/db/collection.go:1542-1591 | the opening check's loop accepts a state exactly when the IDMap is a bijection between live keys and undeleted retained documents stored under the same key, and deletions are of retained documents |
| Managers.AcceptedIffBijection | internal/db/collection.go:1542-1591 | the check's counting conditions (each entry resolves, as many entries as live documents) amount to that bijection, both ways |
| Managers.ApplyRecoveredKeeps | internal/db/collection.go:1482-1540 | one replayed record keeps segment layout and bijection and changes the key-to-payload map as its operation says |
| Managers.ReplayKeeps | internal/db/collection.go:1469-1480 | so does a whole log, for any log that replays |
| Managers.StoreVersionKeeps | internal/db/write_engine.go:289-439 | storing a version sets exactly its key in the visible map and keeps every layout rule |
| Runs.RewriteDocumentRuns | internal/db/collection.go:1392-1406 | the loop computes the greedy runs |
| Runs.RunsPartition | internal/db/collection.go:1392-1406 | the runs are blocks of consecutive IDs within the maximum whose concatenation is the input |
| Runs.RunsAreFewest | internal/db/collection.go:1392-1406 | no partition into such blocks has fewer blocks |
| Runs.RunsOptimal | internal/db/collection.go:1392-1406 | both together, for every input and maximum |
| Runs.CanonicalBlocks | internal/db/collection.go:555-585 | blocks without a mergeable neighbour pair are exactly what the greedy layout gives back |
| Runs.RunsAreCanonical | internal/db/collection.go:555-585 | the greedy layout leaves no mergeable pair |
| Stores.OnlineIsRecovered | internal/db/write_engine.go:289-480 | whatever the online path admits, it applies without failure and exactly as replay would |
| Stores.LiveManager | internal/db/collection.go:1469-1540 | in every store meeting the invariant the manager has a valid layout and shows the checkpoint plus the logged operations |
| Stores.WriteKeepsInv | internal/db/write_engine.go:289-489 | an insert, upsert, update or delete with any append fate (refused, torn, logged but unsynced, logged) leaves memory equal to what recovery would compute |
| Recovery.AddAllMerges | internal/db/index/segment/segment_manager.go:204-226 | installing segments one by one in any admissible order ends in ID order |
| Recovery.OpenIsReplay | internal/db/collection.go:212-330 | opening a checkpoint and a log, with all its checks, is replaying the log over the checkpoint |
| Recovery.CrashRecovers | internal/db/collection.go:212-330 | after any crash that kept a prefix of the log at least as long as what was synced, opening succeeds and shows the checkpoint plus the kept records |
| Recovery.CleanReopenIsIdentity | internal/db/collection.go:212-330 | reopening with the whole log gives the very same manager |
| Recovery.RotateMoves | internal/db/index/segment/segment_manager.go:156-202 | rotation moves the write segment's documents to a sealed segment and loses none |
| Recovery.NextFreeIDFollows | internal/db/collection.go:1359-1376 | the next write segment starts right after the last assigned document ID |
| Recovery.FlushPublishes | internal/db/collection.go:835-1000 | the published checkpoint is exactly the rotated manager, so both sides of the publication show the same documents |
| Recovery.FlushKeeps | internal/db/collection.go:812-1000 | a flush keeps invariant, documents, IDMap and deletions whatever fails, and on success leaves an empty log; the delete-only log included |
| Rewrites.RunsLayout | internal/db/collection.go:1124-1357 | rewritten segments form a valid layout with fresh segment IDs |
| Rewrites.RewriteKeeps | internal/db/collection.go:1124-1357 | a rewrite keeps the invariant and the keys; on failure nothing visible changed, on success the payloads are the given ones |
| Compactions.ReplayCommutesWithSwap | internal/db/compaction.go:193-233 | purging deleted documents and swapping segments commutes with replaying any log whose deletions it may not undo |
| Compactions.PurgedIDsAre | internal/db/compaction.go:78-94 | the purged list is the captured deletions among the captured documents |
| CompactionProofs.BeginTracks | internal/db/compaction.go:48-68 | a capture of a flushed store is tracked by the store |
| CompactionProofs.PrepareTracks | internal/db/compaction.go:73-155 | a preparation, complete, interrupted at any read or write, or complete with the cancelled context's error still returned, keeps the relation and only advances the in-memory reservation |
| CompactionProofs.TracksWrite | internal/db/write_engine.go:131-287 | writes and deletes between the phases keep the relation |
| CompactionProofs.TracksFlush | internal/db/collection.go:812-1000 | flushes between the phases keep it: captured deletions stay in the on-disk delete snapshot |
| CompactionProofs.TracksRewrite | internal/db/collection.go:1124-1357 | a rewrite between the phases keeps it and withdraws the inputs, so the commit will refuse |
| CompactionProofs.CommitSucceeds | internal/db/compaction.go:180-306 | when its guards hold the commit installs the outputs, purges both delete sets and keeps the invariant |
| CompactionProofs.CommitFails | internal/db/compaction.go:180-306 | when they do not, it fails and changes nothing but possibly the sync mark |
| CompactionProofs.CommitKeeps | internal/db/compaction.go:180-306 | either way the map in memory, the map of the checkpoint and the log are unchanged, and it succeeds if and only if the guards hold |
| CompactionProofs.CommitInvisibleToReplay | internal/db/compaction.go:193-306 | any log that replays over the checkpoint a commit replaces opens over both, as the same IDMap and map and as the same manager but for the swapped segments and purged deletions |
| CompactionProofs.CommitInvisibleToRecovery | internal/db/compaction.go:193-306 | for every prefix of the log, torn record included, the manifest before and the manifest after a commit both open and show the same map |
| Optimization.LayoutChangesIffMergeable | internal/db/collection.go:555-585 | the layout test on the greedy runs holds exactly when some neighbouring segments could be merged |
| Optimization.ChangedIffNeeded | internal/db/collection.go:555-585 | on a flushed store Prepare reports a change exactly when OptimizationNeeded holds |
| Optimization.OneRoundIsEnough | internal/db/compaction.go:95-109 | when OptimizationNeeded holds, the log is usable and the segment ID space has room, an undisturbed Prepare and Commit succeed and OptimizationNeeded is false afterwards |
| Histories.ReaderSeesHistory | internal/db/collection.go:1469-1540 | in a reachable state readers see the fold of the acknowledged history |
| Histories.HistoryIDsIncrease | internal/db/collection.go:1359-1376 | document IDs in the surviving history strictly increase and the next one is above them all |
| Histories.StepKeepsInv | internal/db/collection.go:812-1357 | every event, of writes, flushes, rewrites, schema changes, compaction phases and crashes, keeps the system invariant |
| Histories.EveryCrashRecovers | internal/db/collection.go:1469-1540 | from any reachable state every admissible crash recovers the map after a prefix of the history that holds all durable changes, or the whole history plus the one torn write |
| Histories.StepIsAllowed | internal/db/collection.go:812-1000 | every concrete step is a step of an abstract append-only log with a durable mark |
| Histories.EveryRun | internal/db/collection.go:812-1540 | all of it after any sequence of events on a new collection: readers, recovery, the opening check and ID order |
| SegmentIDs.PrepareAppends | internal/db/compaction.go:111-155 | a preparation appends a prefix of the replacements under newly reserved segment IDs, and nothing once prepared |
| SegmentIDs.EveryRunSegmentIDs | internal/db/compaction.go:111-155 | after any sequence of events installed, writing and in-flight segments have pairwise distinct IDs |
| Durability.StepLags | internal/db/index/storage/wal/wal.go:264-343 | every event keeps the unsynced records equal to those appended since the last sync plus the backlog a crash left, the former fewer than the sync interval while the log is usable |
| Durability.EveryRunLags | internal/db/index/storage/wal/wal.go:303-310 | so after any run the acknowledged changes that are not durable are exactly those two together |
| Durability.NoCrashNoBacklog | internal/db/index/storage/wal/wal.go:303-310 | without a crash there is no backlog, and the interval stays the one given |
| Durability.CreatedStoreLoses | internal/db/index/storage/wal/wal.go:303-310 | a collection created to sync every N records has fewer than N acknowledged changes that its first crash could lose, none for N = 1, unless a failure poisoned the log |
| Durability.EveryWriteSynced | internal/db/index/storage/wal/wal.go:303-310 | with N = 1 an acknowledged write leaves the whole log durable, on a reopened log too |
| Acceptance.WriteAccepted | internal/db/write_engine.go:289-480 | with nothing in its way a write is acknowledged if and only if an insert's key is not shown, an update's or delete's key is, and an upsert's may be either; it then has the next ID, a delete the ID of its key |
| Acceptance.WriteRefused | internal/db/write_engine.go:289-480 | the cause of each refusal: poisoning, key, size, presence, ID space, room in the segment or the log; there is no other |
| Acceptance.FlushDoneIff | internal/db/collection.go:812-1000 | a flush is done exactly when the log can be synced and there is nothing to flush or room in both ID spaces and the generation and nothing aborts |
| Acceptance.FlushedBegins | internal/db/compaction.go:48-68 | after any flush a compaction can begin while a generation is left |
| Acceptance.RewriteAcceptedIff | internal/db/collection.go:1124-1180 | a rewrite is admitted exactly when it replaces payloads of the live documents in ID order within their limit |
| Acceptance.RewriteDoneIff | internal/db/collection.go:1124-1357 | it is done exactly when it is admitted, the log can be synced, and there is room in the ID spaces and the generation and nothing aborts |
| Acceptance.SchemaDoneIff | internal/db/collection.go:1027-1057 | a schema change is done exactly when it changes nothing or a generation can be published |
| CollectionStores.CollectionStore.Create | internal/db/collection.go:96-210 | a new store is valid and empty |
| CollectionStores.CollectionStore.Adopt | internal/db/collection.go:212-330 | a store opened from what a crash left is valid and shows the recovered map |
| CollectionStores.CollectionStore.AppendRecord | internal/db/index/storage/wal/wal.go:264-312 | appending a record has one of the four fates in the specified state, the log synced once as many records as the interval are unsynced; `Durability` says what that guarantees |
| CollectionStores.CollectionStore.InsertOne | internal/db/write_engine.go:289-335 | the new state is the specified one; an accepted insert sets its key, a present key is refused |
| CollectionStores.CollectionStore.ReplaceOne | internal/db/write_engine.go:337-439 | upsert and update likewise; an update of an absent key is refused; `Acceptance.WriteAccepted` says exactly when each is acknowledged |
| CollectionStores.CollectionStore.DeleteOne | internal/db/write_engine.go:441-480 | an accepted delete removes its key, an absent key is refused |
| CollectionStores.CollectionStore.WriteOne | internal/db/write_engine.go:289-480 | dispatch by kind, in the specified state |
| CollectionStores.CollectionStore.WriteBatch | internal/db/write_engine.go:131-287 | a batch is its writes in order up to cancellation, one result each |
| CollectionStores.CollectionStore.SyncLog | internal/db/index/storage/wal/wal.go:316-343 | a sync makes all records durable or poisons the log |
| CollectionStores.CollectionStore.PublishManifest | internal/db/collection.go:948-963 | publication installs a valid manifest or leaves the old one |
| CollectionStores.CollectionStore.Flush | internal/db/collection.go:812-1000 | the specified new state; readers see no change; on success the manager is its checkpoint |
| CollectionStores.CollectionStore.FlushInto | internal/db/collection.go:835-1000 | the part after the next write segment exists |
| CollectionStores.CollectionStore.PublishSchema | internal/db/collection.go:1027-1057 | a schema change touches schema and generation only |
| CollectionStores.CollectionStore.InstallRewrite | internal/db/collection.go:1181-1357 | installing rewritten segments, rolled back when publication aborts |
| CollectionStores.CollectionStore.RewriteDocuments | internal/db/collection.go:1124-1357 | the specified new state; keys are kept, payloads are the given ones exactly on success |
| CollectionStores.CollectionStore.Fetch | internal/db/index/segment/segment_manager.go:300-316 | a key is found exactly when readers see it, with its payload |
| CollectionStores.LocateSegment | internal/db/index/segment/segment_manager.go:525-534 | the binary search finds the one segment whose range may hold an ID |
| CollectionStores.RetainedDocument | internal/db/index/segment/segment_manager.go:279-297 | lookup by ID agrees with the index of all retained documents |
| CollectionStores.ReplayLog | internal/db/collection.go:1469-1480 | the replay loop computes the specified replay, stopping at its first error |
| CollectionStores.RecoverOne | internal/db/collection.go:1482-1540 | one record by kind, with its error cases |
| CollectionStores.OpenManager | internal/db/collection.go:212-330 | building a manager from a manifest and a log is the specified open |
| CollectionStores.WriteShows | internal/db/write_engine.go:289-480 | what readers see after a write, by kind and outcome |
| CompactionHandles.CompactionHandle.Begin | internal/db/compaction.go:48-68 | the captured fields, tracked by the store |
| CompactionHandles.CompactionHandle.ReadInputs | internal/db/compaction.go:77-94 | the survivors and purged IDs of all inputs, or of the part read before a failure |
| CompactionHandles.CompactionHandle.Prepare | internal/db/compaction.go:73-155 | the specified new handle and store, readers unaffected |
| CompactionHandles.CompactionHandle.ReserveAndWrite | internal/db/compaction.go:111-155 | segment IDs are reserved in memory and one replacement is written per run |
| CompactionHandles.CompactionHandle.MatchInputs | internal/db/compaction.go:197-214 | the loop decides whether all inputs are installed and unchanged, and finds the segments that stay |
| CompactionHandles.CompactionHandle.Commit | internal/db/compaction.go:180-306 | the specified new state; done exactly when the guards hold; readers unaffected; captured deletions purged |
| CompactionHandles.CompactionHandle.Close | internal/db/compaction.go:309-326 | closing changes the handle only |
| Iterators.WriteRetains | internal/db/write_engine.go:289-480 | writes and deletes keep every retained document |
| Iterators.StepRetains | collection.go:1603-1611 | no event that may run while an iterator is open drops a retained document |
| Iterators.ActKeepsInv | iterator.go:51-90 | creating, advancing and closing iterators and store events keep every iterator's promise |
| Iterators.EveryIteratorIsStable | internal/db/iterator.go:84-114 | over any interleaving an open iterator is the one the run started with or was created by an action of the run; it yields each document of the IDMap of the state that created it once, with the payload readers saw there, and never meets a missing one |
| Iterators.NextsConsume | iterator.go:51-90 | each call of Next on an open iterator consumes one frozen entry until they are used up |
| Iterators.NextsYieldAll | internal/db/iterator.go:84-114 | so as many calls as entries are left yield every key of the creation's map with the payload shown then |
| Filters.EvaluateDocuments | collection.go:3532-3684 | exact bitmap, candidate recheck or scan: the rows and keys that match, their count, the index mark, and an error exactly when the chosen way meets one |
| Filters.UsesIndexWhen | collection.go:3597-3602 | proposals are used exactly while they are fewer than the ratio times the documents: not at the ratio itself, and always for an empty segment |
| Filters.EvaluateSegmentFilters | collection.go:3686-3793 | the direct evaluation meets the specification locally and globally, with its error condition |
| Filters.CreateSnapshot | collection.go:261-295 | a snapshot's mask is the direct evaluation without a plan |
| Filters.EvaluateMasked | collection_filter.go:98-120 | one segment of the fast evaluation restricts matches to live documents |
| Filters.MergeSegment | collection_filter.go:128-152 | a segment's rows translate into rows of the live list, each once |
| Filters.EvaluateSnapshotFilters | collection_filter.go:59-153 | the fast evaluation meets the same specification, on all its paths |
| Filters.AnsweredAgree | collection_filter.go:59-153 | the specification fixes predicate, listed rows, counts and marks: two results meeting it agree locally and globally |
| Filters.MaskIgnoresRatio | collection.go:282-285 | the live mask a snapshot was given is the plan-free evaluation for every ratio, so a query may run under another ratio than the one it was built with |
| Filters.SnapshotRefinesDirect | collection_filter.go:59-153 | for any plan, snapshot and ratio the two evaluations fail together and otherwise agree |
| Filters.RowsCount | collection.go:3676-3683 | without repeated IDs there are as many selected rows as matching keys |
| Snowball.InsideShares | pkg/snowball/env.go:344-356 | an entry between the bounds shares at least what both bounds share, so comparison may start there |
| Snowball.Env.CompareForward | pkg/snowball/env.go:343-356 | the comparison loop decides the byte order and how much is shared |
| Snowball.Env.CompareBackward | pkg/snowball/env.go:411-425 | the same for the text before the cursor, read backwards |
| Snowball.Env.SearchForward | pkg/snowball/env.go:331-376 | the search stops at an entry whose prefixes are exactly the matching entries |
| Snowball.Env.SearchBackward | pkg/snowball/env.go:398-445 | the same backwards |
| Snowball.Env.Walk | pkg/snowball/env.go:378-396 | the walk down the links tries matching entries from the longest and stops at the first accepted |
| Snowball.Env.FindAmong | pkg/snowball/env.go:331-396 | the result and cursor of the longest accepted entry that starts the text; otherwise 0 and the cursor the last guard left |
| Snowball.Env.FindAmongB | pkg/snowball/env.go:398-464 | the same for suffixes, the cursor moving back |
| Jieba.Dictionary.AddPrefixes | pkg/jieba/jieba.go:334-342 | exactly the proper prefixes up to the longest length tried are marked |
| Jieba.Dictionary.AddWord | pkg/jieba/jieba.go:209-225 | entering a word keeps lengths, prefixes and the longest length right |
| Jieba.Dictionary.AddUserWord | pkg/jieba/jieba.go:302-315 | a user word likewise; single runes are also kept whole |
| Jieba.PruningIsSafe | pkg/jieba/jieba.go:655-666 | a text marked as no prefix has no extension in the dictionary within the limit |
| Jieba.BuildDAG | pkg/jieba/jieba.go:639-669 | the pruned graph has the edges of the unpruned one |
| Jieba.CandidatesAreWords | pkg/jieba/jieba.go:639-669 | the edges from a rune are exactly its words within range |
| Jieba.BestEdge | pkg/jieba/jieba.go:684-701 | the edge of greatest value, or none when nothing exceeds the floor |
| Jieba.CutMP | pkg/jieba/jieba.go:671-715 | the words split the range, and no split weighs more whenever the floor is not reached |
| Jieba.LowWeightsAreAbove | pkg/jieba/jieba.go:671-715 | weights whose sum over the range stays above the floor never reach it |
| Jieba.OrdinaryWeightsAreAbove | pkg/jieba/jieba.go:671-715 | with weights of at least -1e6 and a range of at most 2^64 runes the source's floor is never reached |
| Jieba.TilesSpell | pkg/jieba/jieba.go:703-715 | words that tile a range spell its runes |
| Tagging.FillTable | pkg/jieba/jieba.go:900-927 | the arrays hold Viterbi's weights and predecessors |
| Tagging.WeightBounds | pkg/jieba/jieba.go:907-927 | no path to a state weighs more than its table entry |
| Tagging.TraceWeight | pkg/jieba/jieba.go:928-936 | an entry above the floor is the weight of the path read back from it |
| Tagging.Tag | pkg/jieba/jieba.go:899-936 | the tags end a word at the end and are a most likely such tagging whenever one is possible |
| Tagging.CutHMMInternal | pkg/jieba/jieba.go:899-946 | the words tile the range and one ends at a position exactly when its tag is end or single, for tags that are a most likely tagging whenever one is possible |
| Cutting.Decode | pkg/jieba/jieba.go:566-598 | the lenient decoding, failing exactly where an encoding is cut short or starts wrongly |
| Cutting.DecodeEncoded | pkg/jieba/jieba.go:566-598 | the UTF-8 encoding of any scalar values decodes to those values, one rune each |
| Texts.ValidIffEncoded | document.go:50-60 | the byte check keys and strings pass accepts exactly the encodings of sequences of Unicode scalar values |
| Cutting.SplitInputRanges | pkg/jieba/jieba.go:600-622 | the ranges are exactly the separators alone and the maximal stretches between them, and they tile the text |
| Cutting.TokenIs | pkg/jieba/jieba.go:861-897 | an ASCII token is a maximal run of letters and digits, and after it a point with a maximal run of digits exactly when a digit follows the point |
| Cutting.CutHMM | pkg/jieba/jieba.go:819-859 | every token below 0x80 is one word, every whole stretch from 0x80 on is cut by a most likely tagging of it, and the words tile the range |
| Cutting.CutMix | pkg/jieba/jieba.go:748-772 | the words tile the range; maximum-weight words of several runes and user singles are kept, and every maximal run of other single runes is cut as the tagging cutter cuts it |
| Cutting.CutRanges | pkg/jieba/jieba.go:519-540 | the input ranges are cut one after the other and their words tile the text |
| Cutting.CutText | pkg/jieba/jieba.go:498-559 | the words' bytes joined are the text, at the reported offsets, and within each input range they are those of the mode's cutter; failure only for undecodable text |
| Rescaling.QuantizedLevel | pkg/rabitq/quant.go:296-307 | the level is the capped floor of factor times magnitude |
| Rescaling.LevelRises | pkg/rabitq/quant.go:360-368 | at its event a level rises by one and its next event is later |
| Rescaling.RaiseCode | pkg/rabitq/quant.go:382-386 | one event moves numerator and denominator by what the sweep adds |
| Rescaling.ScoreBound | pkg/rabitq/quant.go:374-391 | Cauchy and Schwarz: no codes score more than the squared norm of the magnitudes, and exactly those whose cells' middles are a multiple of the magnitudes reach it |
| Rescaling.ObjectiveBound | pkg/rabitq/quant.go:374-391 | the same of the objective at any factor |
| Rescaling.ScoreOrder | pkg/rabitq/quant.go:388-391 | comparing squares is comparing the quotients by the square roots |
| Rescaling.ObjectiveOrder | pkg/rabitq/quant.go:388-391 | so a factor of greater objective is one of greater quotient by the square root of its denominator, as the source compares |
| Rescaling.Earliest | pkg/rabitq/quant.go:314-331 | the event taken is the earliest, ties broken by entry |
| Rescaling.CrossThreshold | pkg/rabitq/quant.go:380-387 | processing a threshold brings codes, sums and queue to that factor and ends |
| Rescaling.Sweep | pkg/rabitq/quant.go:367-394 | the factor returned maximises the objective over the whole interval, and no smaller factor does |
| Rescaling.BestRescaleFactor | pkg/rabitq/quant.go:341-394 | the same from the magnitudes and bits, 0 when all magnitudes are 0 |
| Rescaling.MaxCodeIsGreatest | pkg/rabitq/quant.go:352-352 | the largest code is the greatest number of that many binary digits |
| Rescaling.LevelsHaveBits | pkg/rabitq/quant.go:296-307 | the levels of any factor, the best included, are numbers of that many binary digits |
| Rescaling.IntervalIs | pkg/rabitq/quant.go:353-355 | end and start of the sweep in numbers, for each number of bits |
| Rescaling.EndReachesMaxCode | pkg/rabitq/quant.go:353-353 | the end lies beyond the last event of the largest magnitude, which is at the largest code there |
| Runtimes.SegmentRuntime.Retain | collection.go:178-185 | one more reference, panicking exactly on a released runtime |
| Runtimes.SegmentRuntime.Release | collection.go:187-202 | one fewer; the last closes the indexes, a failed close keeps the reference |
| Runtimes.StepKeeps | collection.go:204-259 | every step keeps all counts exact |
| Runtimes.EveryRunCounts | collection.go:368-395 | in every interleaving a runtime's count is the number of its holders, nothing panics, and its indexes were closed once if and only if no holder is left |
| Runtimes.ClosedOrKept | collection.go:1514-1542 | when close reaches the store every runtime was closed once or is kept after a failed close |
| Runtimes.OwnedAlone | collection_writer_runtime.go:44-92 | a runtime whose only reference is the owner's is in no snapshot, lease or hold |
| FlatIndexes.GrowthInvisible | collection_index_lifecycle.go:66-74 | a bounded search of a grown index sees what an index of the snapshot's own documents shows |
| FlatIndexes.WriterFlat.Add | collection_index_lifecycle.go:109-127 | a duplicate key is refused and leaves the index as it was |
| FlatIndexes.WriterFlat.AppendWriterFlat | collection_index_lifecycle.go:85-160 | after a complete extension the index is the one built from all documents, also when an earlier attempt failed midway |
| FlatIndexes.WriterFlat.Lease | collection.go:381-395 | a lease pins the documents covered now |
| FlatIndexes.WriterFlat.Search | collection_index_lifecycle.go:66-74 | for every lease, after any appends, the search considers the rows of an index built from the leased documents |
| Budgets.MemoryBudget.Acquire | collection.go:6721-6747 | one pass under the lock: refuse, wait on the captured channel, or grant, with all counters |
| Budgets.MemoryBudget.Cancel | collection.go:6731-6735 | a cancelled waiter is no longer counted |
| Budgets.MemoryBudget.Release | collection.go:6749-6757 | a release returns the grant and opens a new channel |
| Budgets.StepKeeps | collection.go:6662-6690 | every atomic section, the deferred decrement of the queue count its own, keeps the counters exact and within bounds |
| Budgets.EveryRunIsExact | collection.go:6662-6758 | in every interleaving of the sections used memory, waiters, tokens, active, queued and completed are exact, within limit and capacity |
| Budgets.PeakIsHighWater | collection.go:6721-6747 | the recorded peak is the most memory in use at any point of the run |
| Budgets.DecideExact | collection.go:6721-6747 | the verdicts by sums: granted within limit and 64 bits, put off when only the memory in use is in the way, refused otherwise |
| Budgets.NoLostWakeup | collection.go:6726-6757 | a waiter whose amount fits can proceed: no release between capturing the channel and waiting is lost |
| Budgets.NoDeadlock | collection.go:6662-6757 | with any capacity, while some task has not ended some task can go on without a cancellation or an arrival |
| Budgets.NothingLeaks | collection.go:6595-6632 | once all tasks have finished, on whatever path, nothing is held |
| Columns.NullIffReferenced | column_expression.go:232-268 | a result is null exactly when a referenced column is |
| Columns.IntegerLaws | column_expression.go:322-337 | sums and differences of integers are undone by the inverse operation, products are products, quotients truncate toward zero, and only division by zero fails |
| Columns.QuotientTruncates | column_expression.go:333-335 | the remainder of a quotient is smaller than the divisor and has the sign of the dividend |
| Columns.FloatingLaws | column_expression.go:294-321 | with a floating operand what the operator did can be undone; it fails exactly for a division by zero or a result outside the finite range |
| Columns.OutsideRange | column_expression.go:346-355 | an integer beyond the finite range fails beside a floating value |
| Columns.NegationCancels | column_expression.go:245-254 | a negated value and the value cancel, and keep their kind |
| Columns.TruncateBounds | column_expression.go:393-402 | conversion to an integer moves a value toward zero by less than one |
| Columns.CastFits | column_expression.go:357-411 | a cast to an integer type gives the one value of the type's range congruent to the truncated one |
| Columns.WrapOnce | column_expression.go:404-411 | without division, exact evaluation wrapped once equals two's-complement arithmetic at each node |
| Columns.DivisionIsNotMachine | column_expression.go:322-336 | with division the two differ: a concrete expression |
| Expressions.Parser.ParseNumber | column_expression.go:136-175 | the lexeme loop reads the grammar's number and nothing more |
| Expressions.Parser.ParseIdentifier | column_expression.go:177-192 | an identifier names a numeric column of the schema or fails as the source says |
| Expressions.Parser.ParseFactor | column_expression.go:100-134 | a factor of the grammar, from the position it leaves |
| Expressions.Parser.ParseTerm | column_expression.go:81-98 | left-associative products of factors |
| Expressions.Parser.ParseExpression | column_expression.go:62-79 | left-associative sums of terms |
| Expressions.ParseColumnExpression | column_expression.go:48-60 | the whole input must be one expression: it is accepted exactly when it is a written form of the language, with the tree that form denotes |
| Expressions.ParsesExactly | column_expression.go:48-192 | the parser accepts exactly the written forms, blanks, redundant zeros, signs and parentheses included: products bind tighter than sums, both associate to the left, integers have their decimal value |
| Expressions.RoundTrip | column_expression.go:48-134 | any written form parses to the tree it denotes |
| Expressions.ExpressionReads | column_expression.go:62-134 | a printed expression is read back in front of whatever may follow it |
| Expressions.ExpressionWritten | column_expression.go:62-134 | whatever is read as an expression is a written form after blanks |
| Expressions.NumeralReads | column_expression.go:160-165 | the decimal digits of a number, with zeros before them, read as that number |
| Expressions.DigitsAreNumeral | column_expression.go:160-165 | every text of digits is the numeral of its value with zeros before it |
| Bitmaps.Contents.Contains | internal/ailego/container/bitmap.go:33-43 | membership in either representation |
| Bitmaps.Contents.Count | internal/ailego/container/bitmap.go:44-49 | cardinality in either representation |
| Bitmaps.Contents.Within | internal/ailego/container/bitmap.go:50-55 | whether every bit is below a bound |
| Bitmaps.Contents.Add | internal/ailego/container/bitmap.go:64-83 | set insertion across the change of representation, reporting whether it was new |
| Bitmaps.Contents.Remove | internal/ailego/container/bitmap.go:84-97 | set removal, reporting whether it was present |
| Bitmaps.Contents.Range | internal/ailego/container/bitmap.go:105-120 | all bits once, in ascending order |
| Bitmaps.Contents.Or | internal/ailego/container/bitmap.go:121-133 | union for all four pairings |
| Bitmaps.Contents.And | internal/ailego/container/bitmap.go:134-154 | intersection for all four pairings |
| Bitmaps.Contents.AndNot | internal/ailego/container/bitmap.go:155-173 | difference for all four pairings |
| Bitmaps.LowestBit | internal/ailego/container/bitmap.go:228-231 | clearing the lowest set bit removes exactly that bit |
| Bitmaps.Bitmap.Set | internal/ailego/container/bitmap.go:235-241 | a set bit, the logical size covering it |
| Bitmaps.Bitmap.Clear | internal/ailego/container/bitmap.go:242-247 | a cleared bit, the logical size unchanged |
| Bitmaps.Bitmap.Or | internal/ailego/container/bitmap.go:283-292 | union with another, itself or none, sizes joined |
| Bitmaps.Bitmap.And | internal/ailego/container/bitmap.go:293-304 | intersection with another, itself or none |
| Bitmaps.Bitmap.AndNot | internal/ailego/container/bitmap.go:305-319 | difference with another, itself or none |
| Bitmaps.Bitmap.AppendWords | internal/ailego/container/bitmap.go:220-234 | the bits of dense words are added after the logical end |
| Bitmaps.Bitmap.Snapshot | internal/ailego/container/bitmap.go:256-262 | a dense copy says bit by bit the set |
| Bitmaps.Bitmap.SnapshotWithin | internal/ailego/container/bitmap.go:263-270 | the same cut at a bound, exactly when every bit is below it |
| Bitmaps.RebuildFromSnapshot | internal/ailego/container/bitmap.go:220-278 | appending a snapshot to an empty bitmap rebuilds set and size |
| WriteOperations.DecodeEncode | internal/db/write_engine.go:497-557 | decoding an encoded operation gives it back |
| WriteOperations.EncodeDecode | internal/db/write_engine.go:523-557 | every buffer that decodes is the one encoding of its operation |
| WriteOperations.EncodingsDiffer | internal/db/write_engine.go:497-521 | different operations have different encodings |
| WriteOperations.EncodingBytes | internal/db/write_engine.go:497-521 | the bytes of an encoding at their offsets: letters, version, kind 1 to 4, numbers lowest byte first, checksum of all other bytes, key, payload |
| WriteOperations.EncodeWriteOperation | internal/db/write_engine.go:497-521 | filling the buffer field by field yields the specified layout, or the specified error |
| Documents.CanonicalIsCanonical | vector.go:152-183 | the canonical form of a valid value is valid, in index order, with the same coordinates |
| Documents.GetPutItems | document.go:891-945 | variable-length arrays round trip, nil elements included |
| Documents.ValueRoundTrip | document.go:602-880 | decoding the encoding of a canonical value gives the value, for every type |
| Documents.ValueUnique | document.go:685-889 | what decodes is canonical and its bytes are its only encoding |
| Documents.DocumentRoundTrip | document.go:442-486 | marshalled fields unmarshal to themselves |
| Documents.DocumentUnique | document.go:524-600 | every payload that unmarshals is the one marshalling of its fields |
| Documents.DocumentBytes | document.go:442-486 | the bytes of a document at their offsets: letters, version 1, header size 32, count, size and both checksums |
| Documents.FieldBytes | document.go:455-480 | the bytes of a field at their offsets, the number of its type included |
| Documents.ValueBytes | document.go:602-684 | the bytes of every type of value: numbers and elements lowest byte first, indices before values, lengths before items |
| Documents.SortNames | document.go:446-453 | names in byte order, each once |
| Documents.MarshalDocument | document.go:442-486 | a field map encodes to its canonical fields in name order, or is refused; reading the bytes back gives the canonical map |
| Documents.UnmarshalField | document.go:556-594 | one field at an offset, with all its checks |
| Documents.UnmarshalFields | document.go:553-599 | the field loop, trailing bytes refused |
| Documents.UnmarshalDocument | document.go:524-600 | the header checks and the field map |
| LittleEndian.EncodeFixed | document.go:959-981 | the buffer loops write the specified bytes |
| LittleEndian.GetAllPutAll | document.go:959-1028 | fixed-width arrays round trip |
| LittleEndian.PutBytes | document.go:959-981 | byte i of a number is the number divided by 256^i, modulo 256 |
| LittleEndian.PutAllBytes | document.go:959-981 | element k of an array starts at k times the width |

## Left out

- The segment index snapshot list in the manifest, artifact files and their pruning, file names, locks, memory maps, directory syncs, checksum values: file plumbing. Publication of the manifest is one atomic step; a directory sync that fails after the rename counts as published.
- Log damage other than losing an unsynced suffix, with at most one torn record at its end: pages lost out of order make opening fail with a corruption error in the source.
- The WAL's own record format and sequence numbers, and the write segment's file format.
- Cancellation polling: kept only as a choice to stop a batch, to fail a read or to abort before publication.
- Locks of the store: operations of one collection are atomic steps; concurrency is modelled where it is the point (runtime counts, admission, phases of a compaction).
- Read-only handles, Close and Destroy of the store beyond the runtimes.
- Index contents other than the Flat index, query planning, scoring and result merging: the search engine's contract is that candidates hold every match, and only matches when exact.
- The truncation of row numbers to 32 bits: a segment's row count stays below it.
- Filters.EvaluateDocuments: building inverted indexes for uncached fields and planning candidates are one given outcome per segment, the same for both evaluations.
- Budgets.StepKeeps: the limiter's peak counter.
- Runtimes.StepKeeps: the counts are one map in a state machine, not fields of shared objects; only the counter itself is a class.
- Snowball.Env.FindAmong: guards that change the text or its bounds; ReplaceS, hops and groupings.
- Tagging.FillTable: the flat arrays of four times the length are two-dimensional arrays.
- Full and search modes of the cutter, which emit overlapping words.
- Jieba.Dictionary.AddWord: parsing dictionary lines, frequencies and their logarithms; a weight is given.
- Rescaling.BestRescaleFactor: rounding; the quantizer's packing and correction factors, random rotations.
- Columns.WrapOnce: rounding of floating operands; an integer literal outside 64 bits is read as a floating value, as the source does, without its rounding.
- Documents.MarshalDocument: a scalar binary value that is nil is the same as an empty one, as the encoding cannot tell them apart; borrowed vectors and arenas are representation only; the two refusals of invalid fields and of oversized payloads are one kind of error in the source.
- Bitmaps.Contents.Clone: sharing of containers between copies, since a set is a value.
- WriteOperations.EncodeDecode: the checksum's strength.
- Schema and parameter validation, projections, enumerations, error wrapping, command line, downloads.
