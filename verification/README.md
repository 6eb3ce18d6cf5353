# A verified model of the ask server

The server ingests documents, cuts their text into chunks, asks an embedding provider for one vector
per chunk, and answers similarity searches. This project models its two cores and the readers that
rest on them, and proves what they promise.

**Text.** A file is read up to a byte budget, decoded as UTF-8 (RFC 3629, sections 3 and 4), scanned
for line breakpoints and cut into overlapping spans. At embed time the file is read again with another
budget and sliced at the stored offsets. Text is a well-formed byte sequence and lengths are 64-bit
with saturating arithmetic, as in the program.

**Store.** Documents, models, embedding rows, the vector index, the search state and the job queue are
the fields of one object, changed by statements inside transactions that roll back as a whole. Each
method of the object is proved against a function on the database value, and the invariants, leases
and no-lost-work results are proved about those functions over all runs: startup statements that
commit one by one, crashes anywhere, and any interleaving of transactions while serving.

**Readers.** Vector search against a brute-force scan, the collapse of hits to documents, provider
batching, the statistics page, and the plan of a git-aware ingest.

| file | contents |
|---|---|
| `Prelude`, `Types`, `Ordering`, `Tables` | results, machine arithmetic, ordered listings, tables and rows |
| `Utf8`, `Scalars`, `WhiteSpace` | decoding and boundaries, the encoding of scalar values, trimming |
| `Lines`, `Breakpoints`, `LineScores`, `BreakChoice` | line kinds, the scanner and the decayed choice, their meaning on bytes and in whole numbers |
| `Chunking`, `ChunkCoverage`, `EndOrder` | the two chunk loops, what their plans promise, and when ends increase |
| `ContentRead`, `ChunkPlanning`, `PlannedCoverage` | the bounded read, planning, preparing, the round trip, and what a plan covers |
| `JobQueue`, `Seeding` | the lease protocol, retry arithmetic, draining, seeding |
| `StoreSpec`, `StoreInvariant`, `StoreSteps`, `StoreRuns` | transactions as functions, the invariant, every step, whole runs |
| `Database`, `Worker`, `Startup`, `StartupRun` | the store object, the embed handler and dispatcher, startup |
| `InterruptedBackfill`, `FailureRuns` | a crash while the corpus is planned for a new model; runs that lose rows or work |
| `EmbedJob`, `EmbedResults`, `WorkRuns`, `PlanThenEmbed`, `Convergence` | one dispatched job, no lost work, any interleaving, planning followed by embedding, and all jobs together |
| `DocumentWrites`, `Replan`, `JobOutcomes` | what a document write leaves, jobs on changed files, and jobs that do not succeed |
| `VectorSearch`, `SearchExactness`, `CrowdedIndex` | search, when it is exact, and a run after which it is not |
| `Collapse`, `CollapseResults`, `RawLimit`, `SearchPage` | ranked documents, how many hits they need, and the request end to end |
| `Batching`, `Stats`, `GitPlan`, `GitMarkers` | provider batches, statistics, git ingest plans and the entries behind them |

## What the proofs found

- A crash between storing the search state and the backfill of the index leaves a state that the next
  start trusts, so rows stay unsearchable until they are embedded again or the model changes
  (`StoreRuns.TornBuildIsNotRepaired`, on a run from the empty database in `FailureRuns.TornBuildHappens`).
  `StoreRuns.EnsureIndexCompletes` gives the exact condition for a complete index.
- A crash while the corpus is planned for a new model, between two documents or between two rows of one,
  leaves the remaining chunks without rows: the next start finds the model and plans nothing more
  (`InterruptedBackfill.InterruptedPlanStays`, `InterruptedBackfill.ContentCanStayUnplanned`). Startup
  leaves every document with the whole plan of its file exactly when the model was not yet registered or every document
  already had it (`InterruptedBackfill.StartupPlansAllIff`).
- A stale mark that lands between replacing rows and completing the job loses the pair's work
  (`EmbedResults.StaleMarkBeforeCompleteLosesWork`, `FailureRuns.LostWorkHappens`); so does a read that
  fails after a hash mismatch, exactly under the condition of `EmbedResults.FailedReplanLosesWorkIff`. Over
  any interleaving of transactions the completions decide, by the condition of `WorkRuns.RunKeepsWorkIff`.
- A job of a model whose dimension differs from that of the index never stores its vectors: the store
  refuses them and the job changes nothing (`PlanThenEmbed.ReplaceFailsIff`,
  `PlanThenEmbed.EmbedFulfilsPlan`).
- The statistics page fails exactly while the active model has no embedding rows: a sum over no rows is
  NULL and cannot be read as an integer (`Stats.LoadEmbeddingStatsSnapshot`).
- Rows of a non-active model with the same dimension enter the index too and can crowd out rows of the
  active model. `SearchExactness.SearchIsExactIff` gives the exact condition on the stored vectors, and
  `CrowdedIndex.ForeignRowHidesOwn` a run after which a search finds nothing although a row is there.
- Reading four times as many hits as documents wanted gives the documents and scores that all hits would
  give when no document has more than c hits and c * (limit - 1) < 4 * limit, and for no other c
  (`RawLimit.FourfoldIsEnoughIff`): at limit 2 seven hits per document are harmless, at limit 100 more than
  four are not. The locations are kept only for c <= 1, because a content hit that was not read would have
  moved the location away from the filename (`RawLimit.LocationsAreKeptIff`).
- Chunk ends can repeat. With w = max(size/2, 1) and step = size - overlap they strictly increase for every
  text exactly when step > w + 3, or when the overlap is 1 and the size at least 8, trivial configurations
  aside (`EndOrder.EndsIncreaseIff`); for one-byte texts exactly when step > w
  (`EndOrder.EndsIncreaseOnBytesIff`).
- The second end guard of `structure_chunks` (crates/ask-server/src/worker/chunking.rs:160-164) and the
  count check after each provider batch (crates/ask-server/src/embeddings.rs:305-312) are never taken.
- The doc comment on startup calls the last seeding pass unconditional; for a newly registered model it
  always reports 0, because the backfill has already seeded (`Startup.ReconcileEmbeddingStartup`).

## Model

| member | source | states |
|---|---|---|
| `Utf8.DecodedMeaning` | crates/ask-server/src/worker/ingest.rs:853-864 | A whole decode succeeds exactly on well-formed bytes; a failure without `error_len` means exactly that the bytes are the beginning of some longer well-formed text |
| `Utf8.ValidUpToIsLongest` | crates/ask-server/src/worker/ingest.rs:858-862 | `valid_up_to` is at least the length of every well-formed prefix |
| `Utf8.BoundarySplits` | crates/ask-server/src/worker/ingest.rs:868-874 | In well-formed text the one-byte boundary test holds exactly where the text splits into two well-formed halves |
| `Utf8.FloorCharBoundary` | crates/ask-server/src/worker/chunking.rs:281-287 | The loop returns the greatest scalar boundary not above the index, clamped to the text |
| `Utf8.CeilCharBoundary` | crates/ask-server/src/worker/chunking.rs:289-295 | The loop returns the least scalar boundary not below the index, clamped to the text |
| `Utf8.RoundingIsShort` | crates/ask-server/src/worker/chunking.rs:281-287 | Rounding down to a boundary moves back at most three bytes |
| `Utf8.BeginningOfBeginning` | crates/ask-server/src/worker/ingest.rs:798-821 | Cutting the beginning of a well-formed text anywhere leaves the beginning of a well-formed text |
| `Scalars.WellFormedIff` | crates/ask-server/src/worker/ingest.rs:853-864 | Bytes are accepted exactly when they are the encodings, by division and remainder, of some sequence of scalar values (0 to 0x10FFFF without surrogates) |
| `Scalars.BoundariesAreBetweenScalars` | crates/ask-server/src/worker/chunking.rs:281-295 | The boundaries of an encoded text are exactly the places between its scalars |
| `ContentRead.ReadContentPrefixWithBudget` | crates/ask-server/src/worker/ingest.rs:791-842 | The bounded read, with its probe, decode and flags, returns exactly the read plan that the lemmas below are about |
| `ContentRead.ReadRefinesLongestPrefix` | crates/ask-server/src/worker/ingest.rs:791-866 | For any file and budget: content comes back if and only if the bytes read are acceptable text with a non-empty aligned prefix, and it is then the longest well-formed prefix of the file within the budget; the flags and counts say so |
| `ContentRead.BoundedReadRefinesWholeFile` | crates/ask-server/src/worker/ingest.rs:791-866 | On a well-formed file with no NUL in the probe, reading budget+3 bytes equals decoding the whole file and rounding the budget down |
| `ContentRead.AlignedLengthIsLongest` | crates/ask-server/src/worker/ingest.rs:844-866 | The rounded length of the decoded part is the longest well-formed prefix within the budget |
| `ContentRead.EncodedTextIsRead` | crates/ask-server/src/worker/ingest.rs:791-866 | A file that encodes scalar values without a zero byte in the first 8192 bytes read comes back as the longest run of whole scalars within the budget, with the matching flags |
| `ContentRead.FittingTextIsReadWhole` | crates/ask-server/src/worker/ingest.rs:791-866 | If it fits the budget it comes back whole and untruncated |
| `ContentRead.EarlyZeroIsRefused` | crates/ask-server/src/worker/ingest.rs:799-821 | A zero byte in the first 8192 bytes read refuses the file |
| `ContentRead.RestIsNotRead` | crates/ask-server/src/worker/ingest.rs:797-806 | Bytes past the budget and three more do not matter |
| `Lines.LineStartIsBoundary` | crates/ask-server/src/worker/chunking.rs:187-198 | Line starts and line ends of well-formed text are scalar boundaries, so slicing a line never splits a scalar |
| `WhiteSpace.TrimIsByScalars` | crates/ask-server/src/worker/chunking.rs:198 | Trimming drops exactly the scalars with the Unicode property White_Space at the two ends |
| `Breakpoints.ScanBreakpoints` | crates/ask-server/src/worker/chunking.rs:182-226 | The line loop with its fence flag produces exactly the scanned breakpoints, in order |
| `Breakpoints.ScanMeetsReference` | crates/ask-server/src/worker/chunking.rs:182-226 | A breakpoint is scanned if and only if some line, judged alone with the parity of the fence lines before it, owes it |
| `LineScores.ScanIsExactly` | crates/ask-server/src/worker/chunking.rs:182-226 | A breakpoint is scanned if and only if the bytes of some line give it: a fence line 80 at its start; outside fences a heading of level n 110 - 10n, a rule 60, a list item 5 at its start, and at the start of the next line 1, and 20 after a blank line |
| `LineScores.HeadingIsScored` | crates/ask-server/src/worker/chunking.rs:297-320 | Outside a fence a line of n hash signs, 1 to 6, and then its end, a space or a tab has the score 110 - 10n, and no other but the 1 or 20 of the line before |
| `LineScores.FenceIsScored` | crates/ask-server/src/worker/chunking.rs:322-324 | A line that starts with three grave accents or tildes scores 80, opening or closing |
| `LineScores.RuleIsScored` | crates/ask-server/src/worker/chunking.rs:326-335 | A line of three or more equal hyphens, asterisks or underscores scores 60 |
| `LineScores.ItemIsScored` | crates/ask-server/src/worker/chunking.rs:337-354 | A bullet or a number with dot and space scores 5 |
| `LineScores.BlankIsScored` | crates/ask-server/src/worker/chunking.rs:212-216 | After a blank line the next line scores 20 |
| `LineScores.HeadingIsNotPassedOver` | crates/ask-server/src/worker/chunking.rs:241-263 | Of two headings in the window the earlier one is never chosen unless it is of a higher level |
| `Breakpoints.BreakpointPlaces` | crates/ask-server/src/worker/chunking.rs:199-220 | Every breakpoint is at a line start inside the text, scores 1 to 100, and is outside fences unless its line is a fence line |
| `Breakpoints.BreakpointIsBoundary` | crates/ask-server/src/worker/chunking.rs:182-239 | Every breakpoint of well-formed text is a scalar boundary strictly inside it |
| `Breakpoints.NoBreakpointInsideFence` | crates/ask-server/src/worker/chunking.rs:199-208 | No breakpoint lies strictly between an opening fence line and the line that closes it |
| `Breakpoints.ScanIsSorted` | crates/ask-server/src/worker/chunking.rs:182-226 | Scanned positions never go backwards |
| `Breakpoints.BestIsMaximal` | crates/ask-server/src/worker/chunking.rs:241-263 | The choice is a candidate in the window that no candidate beats, and there is none only without candidates |
| `Breakpoints.BestIsLastMaximum` | crates/ask-server/src/worker/chunking.rs:257-261 | Of several equally good candidates the last one is chosen |
| `Breakpoints.NearerIsBetter` | crates/ask-server/src/worker/chunking.rs:265-269 | Nearer the target with at least the score means a strictly higher decayed score |
| `Breakpoints.DecayIsBounded` | crates/ask-server/src/worker/chunking.rs:247-269 | Inside the window the decay costs at most a factor of 1.7 |
| `Breakpoints.ChoiceIsSound` | crates/ask-server/src/worker/chunking.rs:241-269 | The choice lies in (start, target] and in the window; no candidate nearer the target has at least its score, and none has more than 1.7 times its score |
| `BreakChoice.DecayedOrderIff` | crates/ask-server/src/worker/chunking.rs:265-269 | Decayed scores compare as score times (10 w^2 + 7 d^2) of the other, in whole numbers, for window w and distance d |
| `BreakChoice.ChunkEndsRight` | crates/ask-server/src/worker/chunking.rs:151-164 | A chunk ends at the end of the text if it can reach it, else at the breakpoint in reach that no other beats by that comparison, the last of equals, else at its target rounded to a scalar |
| `Chunking.FixedUtf8Chunks` | crates/ask-server/src/worker/chunking.rs:86-125 | The loop with its two saturating fallbacks terminates and computes the walk specified by `Spans` |
| `Chunking.StructureChunks` | crates/ask-server/src/worker/chunking.rs:127-180 | The loop over scanned breakpoints terminates and computes the same walk with breakpoints; the early fall-back to fixed chunks agrees with it |
| `Chunking.NextStart` | crates/ask-server/src/worker/chunking.rs:171-176 | The next start is the boundary with the least overlap meeting the request, or else the first boundary after the current start |
| `Chunking.ChunkEnd` | crates/ask-server/src/worker/chunking.rs:151-164 | Every chunk end is a scalar boundary after its start, so the second end guard is never taken |
| `Chunking.WindowIsUnused` | crates/ask-server/src/worker/chunking.rs:143-146 | Without breakpoints the break window does not matter |
| `Chunking.ScannedCutsAreValid` | crates/ask-server/src/worker/chunking.rs:143-158 | Scanned breakpoints are legal chunk ends |
| `ChunkCoverage.PlanCovers` | crates/ask-server/src/worker/chunking.rs:133-177 | The coverage below holds for any legal cut places, not only the scanned ones |
| `ChunkCoverage.CoverWithoutOverlap` | crates/ask-server/src/worker/chunking.rs:166-176 | The slices of any covering without overlap concatenate back to the text |
| `ChunkCoverage.StructureChunksCover` | crates/ask-server/src/worker/chunking.rs:127-180 | For every text, chunk size above 0, overlap and window: spans start at 0, end at the end, lie on boundaries, are non-empty, start strictly later each time, leave no gap, are at most the chunk size or one scalar, and overlap least |
| `ChunkCoverage.FixedChunksCover` | crates/ask-server/src/worker/chunking.rs:86-125 | The same coverage for fixed chunks |
| `ChunkCoverage.StartsIncrease` | crates/ask-server/src/worker/chunking.rs:171-176 | Starts of any covering strictly increase, over any distance |
| `ChunkCoverage.StructureChunksConcatenate` | crates/ask-server/src/worker/chunking.rs:127-180 | With overlap 0 the slices concatenate back to the text |
| `ChunkCoverage.StructureProgress` | crates/ask-server/src/worker/chunking.rs:48-51 | With window w = max(size/2, 1) and step above w + 3, for every text: ends strictly increase, the next start is always the rounded request, and there are at most ceil(len / (step - w - 3)) spans |
| `ChunkCoverage.FixedClosedForm` | crates/ask-server/src/worker/chunking.rs:86-125 | When every byte is a boundary, span k is [k*step, min(k*step + size, len)] and there are ceil((len - overlap) / step) |
| `EndOrder.EndsIncreaseIff` | crates/ask-server/src/worker/chunking.rs:127-180 | Over all texts chunk ends strictly increase if and only if the configuration is tame: size 0, overlap 0 or not below the size, a size beyond any text, and otherwise step > w + 3, or size >= 8 when the overlap is 1 |
| `EndOrder.EndsIncreaseOnBytesIff` | crates/ask-server/src/worker/chunking.rs:127-180 | Over all texts of one-byte scalars they do if and only if, the same trivial cases aside, step > w |
| `EndOrder.TameIncreases` | crates/ask-server/src/worker/chunking.rs:151-177 | In a tame configuration the ends of every text strictly increase |
| `EndOrder.BytesRepeat` | crates/ask-server/src/worker/chunking.rs:151-177 | For every overlap above 0 and step at most w there is a one-byte text, two lines of letters, whose first two chunks end at the same line break |
| `EndOrder.StraddleRepeats` | crates/ask-server/src/worker/chunking.rs:166-176 | For every overlap above 1 and w < step <= w + 3 there is a text with a multi-byte scalar across the requested start whose ends repeat |
| `EndOrder.TwoScalarsRepeat` | crates/ask-server/src/worker/chunking.rs:166-176 | With overlap 1 and sizes 3 to 7 a letter and two multi-byte scalars repeat an end |
| `ChunkPlanning.PlannedKeysAreDistinct` | crates/ask-server/src/worker/ingest.rs:681-726 | No two planned chunks share type and start, so none overwrites another under the unique index |
| `PlannedCoverage.PlanCoversText` | crates/ask-server/src/worker/ingest.rs:681-726 | For every file read as text: the filename first, then content chunks that cover the text from 0 to its end with the size and overlap of the model; one if it fits or the overlap leaves no step, and otherwise each ends at the best breakpoint within half a size of its target, or at the rounded target |
| `PlannedCoverage.NameOnlyIff` | crates/ask-server/src/worker/ingest.rs:689-703 | The filename alone is planned exactly when the file is not read as text or the chunk size is 0 |
| `PlannedCoverage.EveryByteIsPlanned` | crates/ask-server/src/worker/ingest.rs:705-715 | Every byte of the text lies in a planned content chunk |
| `PlannedCoverage.WholeFileIsPlanned` | crates/ask-server/src/worker/ingest.rs:681-726 | A file of at most 1 MiB that encodes scalar values other than NUL is planned to its last byte, and with overlap 0 its chunks put back together are the file |
| `PlannedCoverage.EmbeddedInputsAreTheFile` | crates/ask-server/src/worker/embed_document.rs:241-288 | Without overlap, preparing its planned rows again yields the filename and then, piece by piece, exactly the file |
| `ChunkPlanning.ContentSpans` | crates/ask-server/src/worker/ingest.rs:705-715 | Planned content spans are non-empty and lie on scalar boundaries of the planned text |
| `ChunkPlanning.PrepareEmbeddedChunks` | crates/ask-server/src/worker/embed_document.rs:234-300 | The loop prepares every row in order, or stops with the error of the first row that cannot be prepared |
| `ChunkPlanning.MaxContentEnd` | crates/ask-server/src/worker/embed_document.rs:241-246 | The re-read budget is the greatest end of a content row, absent exactly without content rows |
| `ChunkPlanning.RereadGivesPrefix` | crates/ask-server/src/worker/embed_document.rs:246-258 | Reading the same bytes again with any boundary of the planned text as the budget gives exactly the planned text up to it |
| `ChunkPlanning.EmbedSeesPlannedText` | crates/ask-server/src/worker/embed_document.rs:241-288 | Round trip: any rows whose content chunks were planned from the unchanged file are prepared without error, and each slice is exactly the text the planner saw |
| `JobQueue.PickedJob` | crates/ask-core/src/repository.rs:1112-1118 | The claim takes the least claimable id, or nothing exactly when no job is claimable |
| `JobQueue.ClaimStartsLease` | crates/ask-core/src/repository.rs:1103-1139 | A claim stamps exactly one row, the least claimable, which is then not claimable at that clock |
| `JobQueue.LeaseHolds` | crates/ask-core/src/repository.rs:1073-1139 | A row claimed at t is untouched by any run of queue operations on clocks up to t+86400 that neither completes nor defers it, and is claimable at exactly the clocks after that |
| `JobQueue.ClaimedJobIsLeased` | crates/ask-core/src/repository.rs:1103-1139 | From the claim on, whoever else claims or enqueues, the claimed row keeps its lease |
| `JobQueue.DeferIsExact` | crates/ask-core/src/repository.rs:1147-1167 | After a deferral at `now` by r seconds the job is claimable at t if and only if t >= now + min(r, 86400), including r = 0 |
| `JobQueue.DrainIsComplete` | crates/ask-core/src/repository.rs:1103-1139 | Claiming repeatedly at one clock returns exactly the claimable jobs, each once, by ascending id, then nothing |
| `JobQueue.EnqueueKeepsJobs` | crates/ask-core/src/repository.rs:1073-1097 | Enqueueing keeps payloads unique and ids fresh, ends with the payload queued, and loses no queued payload |
| `Seeding.EnqueueOnConflict` | crates/ask-core/src/repository.rs:1079-1094 | An existing payload is refreshed exactly when its claim is older than the stale age, and is refused otherwise |
| `Seeding.AcceptanceIsIndependent` | crates/ask-core/src/repository.rs:1079-1094 | Queueing one payload never changes whether another is accepted |
| `Seeding.SeedIsIdempotent` | crates/ask-core/src/repository.rs:806-867 | A second seeding pass at the same clock changes nothing and counts nothing |
| `Seeding.SeedQueuesExactly` | crates/ask-core/src/repository.rs:825-867 | After a pass a payload is queued if and only if it was before or belongs to a pair with a Pending or Stale row |
| `StoreSteps.SeedCovers` | crates/ask-core/src/repository.rs:825-867 | After seeding every pair with a Pending or Stale row has its job queued, whatever was queued before |
| `Database.Store.EnqueueJob` | crates/ask-core/src/repository.rs:1073-1097 | Inserts, refreshes or refuses; the answer says which pairs are accepted, and the queue stays well formed |
| `Database.Store.ClaimJob` | crates/ask-core/src/repository.rs:1103-1139 | Stamps the picked row and returns its id, or changes nothing |
| `Database.Store.DeferJobForRetry` | crates/ask-core/src/repository.rs:1147-1167 | Writes the synthetic claim time of `DeferIsExact`, if the row still exists |
| `Database.Store.CompleteJob` | crates/ask-core/src/repository.rs:1170-1174 | Removes exactly the row |
| `Database.Store.SeedEmbedJobs` | crates/ask-core/src/repository.rs:825-867 | The loop queues every recoverable pair and returns exactly the number of pairs that were accepted when the pass began |
| `Database.Store.InsertPendingEmbeddings` | crates/ask-core/src/repository.rs:475-513 | The upsert loop and the vector cleanup; fails exactly on a missing document or model |
| `Database.Store.DeleteEmbeddingsForModel` | crates/ask-core/src/repository.rs:556-565 | Removes the rows of the pair and their vectors |
| `Database.Store.InsertAllEmbedded` | crates/ask-core/src/repository.rs:701-718 | The insert loop succeeds exactly when the document exists and no two chunks share type and start |
| `Database.Store.ReplaceEmbeddingsTx` | crates/ask-core/src/repository.rs:671-725 | Replaces the pair as a whole, or rolls back and reports exactly why: missing model, wrong length, refused row or wrong dimension |
| `Database.Store.MarkDocumentsStale` | crates/ask-core/src/repository.rs:252-323 | Marks, unindexes and seeds in one transaction; an empty list does nothing |
| `Database.Store.UpsertDocumentInTx` | crates/ask-core/src/repository.rs:74-128 | Inserts, updates with a stale mark, or leaves a document of the same hash alone |
| `Database.Store.UpsertDocumentAndReplacePending` | crates/ask-core/src/repository.rs:166-197 | Keeps the invariant, replaces the pending rows of the model on a change, and rolls everything back exactly when the model does not exist |
| `Database.Store.DeleteDocumentTx` | crates/ask-core/src/repository.rs:580-596 | Removes the document, its rows and their vectors, keeping the invariant |
| `Database.Store.BackfillActiveSearchModel` | crates/ask-server/src/vector_index.rs:116-167 | Fails exactly on a stored vector of another length; otherwise indexes and counts every Embedded row of the model |
| `Database.Store.EnsureActiveSearchModel` | crates/ask-server/src/vector_index.rs:65-114 | Rebuilds exactly when table and state do not match; an error leaves the statements before it in place |
| `Database.InsertConflict` | crates/ask-core/src/repository.rs:701-718 | Inserting in order meets the unique index exactly at a chunk whose key an earlier chunk took |
| `Database.UpsertOnConflict` | crates/ask-core/src/repository.rs:484-491 | Under the unique index the conflict update rewrites exactly one row |
| `StoreInvariant.UpsertPendingRowsEffect` | crates/ask-core/src/repository.rs:475-513 | Upserting into a pair without Embedded rows keeps keys, ids and homogeneity, and touches no other pair |
| `StoreInvariant.DeletePairRowsEffect` | crates/ask-core/src/repository.rs:556-565 | Deleting a pair leaves none of its rows and all others as they were |
| `StoreInvariant.ReplacedRowsEffect` | crates/ask-core/src/repository.rs:687-718 | Replacing a pair by distinct chunks leaves exactly those chunks, in order under fresh ids, and touches no other pair |
| `StoreSteps.TxKeepsInv` | crates/ask-core/src/repository.rs:74-197 | Every transaction keeps the invariant (unique paths, keys and payloads, one state per pair, foreign keys, vector lengths, every vector an Embedded row with the same bytes) and a complete index |
| `StoreSteps.TxsKeepInv` | crates/ask-core/src/repository.rs:475-725 | So does every sequence of transactions |
| `StoreSteps.ReplacePendingKeeps` | crates/ask-core/src/repository.rs:190-192 | Deleting and re-inserting the pending rows of a pair keeps the invariant and the index |
| `StoreSteps.UpsertDocumentKeeps` | crates/ask-core/src/repository.rs:74-128 | The document write keeps paths unique although no unique index does |
| `DocumentWrites.UpsertStores` | crates/ask-core/src/repository.rs:74-128 | A write changes something if and only if no document of its path has its hash; then exactly that document is stored, under the id of its path or a fresh one |
| `DocumentWrites.ChangedWriteOutdates` | crates/ask-core/src/repository.rs:166-197 | A committed change leaves no Embedded and no indexed row of the document under any model, makes rows of its other models only Stale, and touches no other document |
| `StoreSteps.MarkStaleEffect` | crates/ask-core/src/repository.rs:280-323 | Marking leaves no Embedded row and no vector of the documents, queues all their pairs, and changes no other document, chunk or id |
| `StoreSteps.DeleteEffect` | crates/ask-core/src/repository.rs:580-596 | Deleting leaves nothing of the document in any table or in the index, and nothing else changes |
| `StoreSteps.TxsKeepLease` | crates/ask-core/src/repository.rs:1073-1139 | Lease safety over whole runs of transactions: the claimed row stays as it is and becomes claimable at exactly the clocks after t+86400 |
| `StoreRuns.RunKeeps` | crates/ask-server/src/startup.rs:59-99 | Every run of startup statements, index statements, served transactions and crashes keeps the system invariant |
| `StoreRuns.ReachableIsSound` | crates/ask-server/src/startup.rs:59-99 | Every state reachable from an empty database satisfies it |
| `StoreRuns.RowsOfPairShareState` | crates/ask-core/src/repository.rs:280-323 | State homogeneity: in every reachable state all rows of one (document, model) pair share one state |
| `StoreRuns.ReachableKeys` | crates/ask-core/src/repository.rs:74-128 | Every reachable database has one document per path, one row per key, one job per payload, and Embedded rows of four bytes per dimension |
| `StoreRuns.IndexSandwich` | crates/ask-core/src/repository.rs:968-1055 | Over all runs: each vector is an Embedded row with the same bytes, and while serving, unless an index build was torn, each Embedded row of the served model is indexed |
| `StoreRuns.BackfillCheckHolds` | crates/ask-server/src/vector_index.rs:121-141 | In reachable databases the dimension check of the backfill cannot fail |
| `StoreRuns.EnsureIndexCompletes` | crates/ask-server/src/vector_index.rs:65-114 | `ensure_active_search_model` makes the index complete if and only if it rebuilds or finds it complete |
| `StoreRuns.RebuildIndexesExactly` | crates/ask-server/src/vector_index.rs:65-167 | A rebuild indexes exactly the Embedded rows of the model, each with its own bytes, in a table of its dimension |
| `StoreRuns.EnsureIndexIsItsStatements` | crates/ask-server/src/vector_index.rs:79-97 | The call is the run of its statements, dropping and creating the table apart, without a crash |
| `StoreRuns.TornBuildIsNotRepaired` | crates/ask-server/src/vector_index.rs:79-114 | A crash after the search state is stored and before the backfill is never repaired by the next start |
| `FailureRuns.TornBuildHappens` | crates/ask-server/src/vector_index.rs:79-114 | A run from the empty database ends serving an index without an Embedded row of the served model |
| `EmbedJob.ListIsOrdered` | crates/ask-core/src/repository.rs:613-651 | The list is in the order of chunk type, chunk start and id |
| `EmbedJob.ListIsComplete` | crates/ask-core/src/repository.rs:613-651 | Lists every recoverable row of the pair, each once |
| `EmbedJob.SerializedBytes` | crates/ask-server/src/worker/embed_document.rs:302-308 | Bytes 4k to 4k + 4 of a stored vector are the bytes of component k, lowest first |
| `Worker.SerializeVector` | crates/ask-server/src/worker/embed_document.rs:302-308 | The loop writes the bytes of each component in order |
| `Worker.SerializationIsInjective` | crates/ask-server/src/worker/embed_document.rs:302-308 | Two vectors have the same bytes if and only if they are equal |
| `Worker.EmbeddedChunks` | crates/ask-server/src/worker/embed_document.rs:183-192 | The zip pairs each prepared chunk with its own vector |
| `Worker.ProcessEmbedDocument` | crates/ask-server/src/worker/embed_document.rs:18-224 | Every exit of the handler: what it changes and what it reports add up, with the dispatcher, to the transactions of the job |
| `Worker.EmbedRecoverableRows` | crates/ask-server/src/worker/embed_document.rs:132-223 | The embed half: nothing to do, unreadable, transient, refused, wrong count, storing failed, or stored |
| `Worker.ReplanDocument` | crates/ask-server/src/worker/embed_document.rs:106-130 | The replan half removes the job row before it plans the document again |
| `Worker.DispatchEmbedDocument` | crates/ask-server/src/worker/mod.rs:144-199 | A whole dispatched job is exactly the run of its transactions and keeps the invariant |
| `EmbedResults.CompleteIsSafeIff` | crates/ask-core/src/repository.rs:1170-1174 | Removing a queue row loses no work if and only if its pair, if any, has no recoverable row |
| `EmbedResults.UpsertQueuesEverything` | crates/ask-core/src/repository.rs:166-197 | A changed upsert that commits leaves every recoverable pair queued, whatever was queued before, under new ids only |
| `EmbedResults.ReplanKeepsWork` | crates/ask-server/src/worker/embed_document.rs:106-130 | On a hash mismatch the second completion cannot delete the replacement job, since ids are never reused |
| `Replan.ReplanPlansFile` | crates/ask-server/src/worker/embed_document.rs:106-130 | Dispatching the job of a changed file stores the new hash under the old path and type, leaves exactly one Pending row per chunk planned from the new bytes, created now, queues the pair anew, and outdates every other row of the document |
| `Replan.ReplanThenEmbedIsExact` | crates/ask-server/src/worker/embed_document.rs:106-223 | A second dispatch on that file, answered by the provider, embeds one row per planned chunk and no others, each with the vector of its planned text |
| `EmbedResults.ListedIsWholePair` | crates/ask-server/src/worker/embed_document.rs:132-140 | The recoverable rows of a pair are all its rows or none |
| `EmbedResults.ReplaceEmbedsPair` | crates/ask-server/src/worker/embed_document.rs:183-221 | Rewriting only the listed rows embeds the whole pair without losing, adding or moving a chunk, each row holding its own vector |
| `EmbedResults.JobKeepsWork` | crates/ask-server/src/worker/embed_document.rs:18-224 | A dispatched job whose reads succeed after the hash loses no work on any exit |
| `EmbedResults.FailedReplanLosesWorkIff` | crates/ask-server/src/worker/embed_document.rs:120-129 | When the reads after a hash mismatch fail, work is lost if and only if the job row was still queued and its pair needs embedding |
| `JobOutcomes.TransientFailureDelays` | crates/ask-server/src/worker/mod.rs:176-187 | A transient failure changes the row of the job alone, which is claimable again at exactly the clocks from now + min(delay, 86400) on |
| `JobOutcomes.RefusalKeepsClaim` | crates/ask-server/src/worker/mod.rs:188-199 | A refusal, and a file whose metadata or hash cannot be read, change nothing |
| `JobOutcomes.UnusableReplyKeepsClaim` | crates/ask-server/src/worker/embed_document.rs:132-200 | Neither do an unknown model, content that cannot be read again, or a reply with another number of vectors |
| `JobOutcomes.MissingFileDeletes` | crates/ask-server/src/worker/embed_document.rs:72-92 | A file that is gone takes along its document, the rows and vectors of it, and the entry of the job |
| `EmbedResults.BackgroundKeepsWork` | crates/ask-core/src/repository.rs:166-323 | Ingest, stale marks, deletions, claims, deferrals and enqueues lose no work |
| `EmbedResults.NoWorkIsLost` | crates/ask-server/src/worker/mod.rs:144-199 | With each dispatched job atomic and its reads succeeding, in every history every pair with a Pending or Stale row has its job queued |
| `EmbedResults.StartupRecoversWork` | crates/ask-server/src/startup.rs:86 | Seeding alone establishes this from any stored database |
| `EmbedResults.StaleMarkBeforeCompleteLosesWork` | crates/ask-server/src/worker/mod.rs:171-175 | Without atomic dispatch it fails: a stale mark between replacing and completing is deduplicated against the claimed job, which then goes |
| `FailureRuns.LostWorkHappens` | crates/ask-server/src/worker/mod.rs:171-175 | A run from the empty database with that interleaving ends serving with work that no job is queued for |
| `WorkRuns.StepKeepsWorkIff` | crates/ask-core/src/repository.rs:1170-1174 | The only transaction that can lose work is the completion of a queued embed job whose pair still needs embedding, and it always does |
| `WorkRuns.RunKeepsWorkIff` | crates/ask-server/src/worker/mod.rs:171-175 | In any interleaving of single transactions, work is safe all along the run if and only if every completion of a queued embed job finds its pair with nothing left to embed |
| `WorkRuns.ReplaceKeepsWork` | crates/ask-core/src/repository.rs:671-725 | Replacing the rows of a pair, whatever the chunks and whenever it comes, loses no work |
| `Convergence.DispatchFinishes` | crates/ask-server/src/worker/mod.rs:144-199 | Dispatching one ready job removes exactly its entry, embeds its pair over the same chunks with the vectors of the planned texts, changes no other pair, and loses no work |
| `Convergence.DispatchConverges` | crates/ask-server/src/worker/mod.rs:144-199 | If no work is lost, every queued embed job names a registered model, files are the planned ones, the provider answers and the index fits, then dispatching every queued embed job once, in any order, leaves every row Embedded, no embed job, the same chunks in every pair, and the vector of its planned text in every row that needed one |
| `PlanThenEmbed.UpsertPendingAppends` | crates/ask-core/src/repository.rs:495-508 | Without a key conflict every planned chunk gets its own new row, in order |
| `PlanThenEmbed.UpsertAwaitsPlan` | crates/ask-server/src/worker/ingest.rs:617-658 | Storing a changed document leaves exactly one Pending row per planned chunk of the model, and the pair queued |
| `PlanThenEmbed.ReplaceFailsIff` | crates/ask-core/src/repository.rs:671-725 | Right answers for an existing pair are refused if and only if the index has another dimension than the model, and then as a wrong dimension |
| `PlanThenEmbed.EmbedFulfilsPlan` | crates/ask-server/src/worker/embed_document.rs:132-221 | A dispatched job over planned rows of the unchanged file, answered by the provider: if the index fits the model the pair is Embedded over the same chunks, each row holds the vector of exactly its planned text, and the entry is gone; if not, nothing changes |
| `PlanThenEmbed.PlanThenEmbedIsExact` | crates/ask-server/src/worker/embed_document.rs:132-221 | From storing a changed file to its embedded rows: if the index fits the model, one row per planned chunk and no others, each with the vector of its planned text; if not, the job changes nothing |
| `PlanThenEmbed.ServedPlanIsSearchable` | crates/ask-core/src/repository.rs:720-724 | In every reachable serving state, unless an index build was torn, storing a changed file and dispatching its job for the served model gives one row per planned chunk with the vector of its planned text, each indexed at once |
| `PlanThenEmbed.EmbeddedRowsAreIndexed` | crates/ask-core/src/repository.rs:720-724 | The same for any pair of the served model over planned chunks, stale ones included |
| `Startup.BackfillPendingForModel` | crates/ask-server/src/worker/mod.rs:76-104 | The loop queues every listed document and counts them |
| `Startup.ReconcileEmbeddingStartup` | crates/ask-server/src/startup.rs:59-99 | Resolves or registers the model, and reports the counts; for a new model the final pass seeds nothing more |
| `Startup.SummaryIsExact` | crates/ask-server/src/startup.rs:119-127 | Empty exactly without documents; Idle exactly with documents and every row Embedded |
| `Startup.StartupQueuesEverything` | crates/ask-server/src/startup.rs:59-99 | Afterwards no work is lost, from any stored database with a well-formed queue |
| `Startup.NewModelSeesCorpus` | crates/ask-server/src/startup.rs:68-83 | For a new model every document has exactly one Pending row per planned chunk of its file, and its job is queued |
| `Startup.NewModelPlansFiles` | crates/ask-server/src/worker/mod.rs:76-104 | Those are the chunks of its text for a file that can be read, and the filename alone for any other |
| `StartupRun.StartupIsARun` | crates/ask-server/src/startup.rs:59-99 | Reconciliation is the run of its single statements, so a crash between any two is covered by the run invariant |
| `StartupRun.ReconciledIsReachable` | crates/ask-server/src/startup.rs:59-99 | Reconciling a reachable database leaves a reachable one |
| `InterruptedBackfill.StartupPlansAllIff` | crates/ask-server/src/startup.rs:66-84 | After startup every document has exactly one row per chunk of its plan for the configured model, in any state, if and only if the model was not yet registered, or every document already had |
| `InterruptedBackfill.InterruptedPlanStays` | crates/ask-server/src/startup.rs:66-99 | From any reachable stopped store, with the crash between any two documents or any two rows of one: after a complete second startup each document has exactly the rows written before the crash, so one missing row leaves the corpus unplanned |
| `InterruptedBackfill.PlanCanStayPartial` | crates/ask-core/src/repository.rs:495-508 | From the empty database, whatever the file holds: the plan of a document for a new model can stop after any number of rows |
| `InterruptedBackfill.ContentCanStayUnplanned` | crates/ask-core/src/repository.rs:495-508 | In particular a text file can keep its filename row alone |
| `VectorSearch.OnlyServedModelIsSearchable` | crates/ask-core/src/repository.rs:889-919 | In every reachable serving state search accepts a registered model if and only if it is the served one |
| `VectorSearch.JoinHits` | crates/ask-core/src/repository.rs:768-775 | Joins the nearest rows with their Embedded rows and documents, ordered by distance and id, each once |
| `VectorSearch.SearchDocuments` | crates/ask-core/src/repository.rs:745-804 | Limit 0 answers nothing unchecked; otherwise an error, also for a table of another dimension, or the ordered join over the index answer |
| `VectorSearch.HitsAreSound` | crates/ask-core/src/repository.rs:761-775 | Every hit is an Embedded row of the requested model in an existing document, ranked by the distance of its own stored bytes, and no row occurs twice |
| `VectorSearch.AnswerIsExactIff` | crates/ask-core/src/repository.rs:761-775 | With a complete index, one answer of the index gives a correct answer of the brute-force scan if and only if it has every row of the model or only rows of the model |
| `SearchExactness.SearchIsExactIff` | crates/ask-core/src/repository.rs:761-775 | With a complete index, every answer the index may give is exact if and only if everything fits the limit; or all rows of the model fit and each has fewer than limit rivals at most as far; or they do not all fit and every other row has limit rows strictly nearer |
| `SearchExactness.CanBeLeftOut` | crates/ask-core/src/repository.rs:761-775 | A row with limit rivals at most as far is missing from some correct answer |
| `SearchExactness.CanGetIn` | crates/ask-core/src/repository.rs:761-775 | A row with fewer than limit rows strictly nearer is in some correct answer |
| `CrowdedIndex.ForeignRowHidesOwn` | crates/ask-core/src/repository.rs:968-1055 | A run from the empty database to a serving state where a row of the other model of the same dimension hides the only Embedded row of the served model at limit 1 |
| `VectorSearch.SearchIsBruteForce` | crates/ask-core/src/repository.rs:745-804 | So search equals the brute-force scan whenever only the searched model is indexed |
| `SearchExactness.ServedSearch` | crates/ask-core/src/repository.rs:745-804 | In every reachable serving state, unless an index build was torn, a query of the dimension of the served model is answered, and always exactly under the same condition |
| `VectorSearch.HitListIsUnique` | crates/ask-core/src/repository.rs:775 | The ordering leaves one possible list |
| `Collapse.CollapseToDocuments` | crates/ask-server/src/http/search.rs:158-196 | The loop over map and results returns the declarative list: first `limit` distinct documents, scored by the first hit, located by the first hit that is not a filename, or else by the first |
| `Collapse.DistanceToScore` | crates/ask-server/src/http/search.rs:198-200 | A score in [0, 1], 1 exactly at distance 0 or less and 0 exactly from distance 2 |
| `Collapse.FirstMatchIsFirst` | crates/ask-server/src/http/search.rs:166-185 | The hit that scores or locates a document is its earliest matching one |
| `CollapseResults.RankingIsByFirstHit` | crates/ask-server/src/http/search.rs:166-193 | Documents come in the order of their first hits, each once |
| `CollapseResults.ScoresDescend` | crates/ask-server/src/http/search.rs:158-200 | For hits in order of distance, scores never rise |
| `CollapseResults.HitListIsByDistance` | crates/ask-core/src/repository.rs:775 | Hits of a search come in order of distance |
| `CollapseResults.PrefixOfHits` | crates/ask-server/src/http/search.rs:158-196 | Collapsing a prefix of the hits gives a prefix of the ranked documents |
| `RawLimit.FourfoldIsEnoughIff` | crates/ask-server/src/http/search.rs:202-206 | For every limit up to 100 and every bound c on the hits per document: reading four times the limit gives the same documents with the same scores as all hits, for every list a search can return, if and only if c * (limit - 1) < 4 * limit |
| `RawLimit.LocationsAreKeptIff` | crates/ask-server/src/http/search.rs:166-196 | With locations it gives the same whole page if and only if c <= 1 |
| `RawLimit.LateContentMovesLocation` | crates/ask-server/src/http/search.rs:166-175 | For every limit a later content hit moves the location of a document first met by its filename |
| `RawLimit.NamesEnough` | crates/ask-server/src/http/search.rs:152-155 | More than c * (limit - 1) hits with at most c per document name at least limit documents |
| `RawLimit.TooFewRead` | crates/ask-server/src/http/search.rs:202-206 | Beyond the bound an ordered list of distinct rows loses a document: limit - 1 documents with c near rows each hide one more |
| `SearchPage.Search` | crates/ask-server/src/http/search.rs:56-156 | The request from its checks to its page: which requests fail and with what, and the page of the hits otherwise |
| `SearchPage.ExactSearchIsNearest` | crates/ask-server/src/http/search.rs:151-155 | An exact answer gives hits from near to far with no other row of the model nearer, and all rows when they are fewer than the raw limit |
| `SearchPage.PageShowsNearest` | crates/ask-server/src/http/search.rs:151-196 | The page of such hits shows each document once, scored by its nearest row, located by its nearest content row if one was read and else by its nearest row, with scores that never rise, and no row of a document left out is nearer than one shown |
| `SearchPage.PageIsFull` | crates/ask-server/src/http/search.rs:151-206 | It has as many documents as asked for, or every document with an Embedded row, when no document has too many rows for the raw limit |
| `SearchPage.ServedQueryIsAnswered` | crates/ask-server/src/http/search.rs:133-155 | In every reachable serving state, unless an index build was torn, a query of the dimension of the served model finds its model, its state and its table |
| `SearchPage.PageIsNearestDocuments` | crates/ask-server/src/http/search.rs:126-156 | End to end, in every such state: the page is the nearest documents by their nearest Embedded row, with those scores and locations, as many as asked for or all, unless rows of another model crowd the index or a document has too many rows for the raw limit |
| `Batching.ParseResponseVectors` | crates/ask-server/src/embeddings.rs:247-275 | Sorted by index, or refused exactly on a wrong count or a wrong dimension |
| `Batching.SortByIndexSorts` | crates/ask-server/src/embeddings.rs:252-253 | The sort returns a sorted permutation |
| `Batching.FaithfulReplyParses` | crates/ask-server/src/embeddings.rs:247-275 | A reply that answers every input once, in any order, parses to the embeddings in input order |
| `Batching.EmbedInputsInBatches` | crates/ask-server/src/embeddings.rs:277-318 | The loop requests adjacent ranges, full except at the end and never over the limit, covers all inputs on success, and returns the error of the first failing batch |
| `Batching.RepliesAreFull` | crates/ask-server/src/embeddings.rs:305-312 | An accepted reply has one vector of the right dimension per input, so the second count check never fires |
| `Batching.BatchingIsInvisible` | crates/ask-server/src/embeddings.rs:277-318 | For any limit above 0 and any permutation of each reply the result is the embedding of each input in order |
| `Batching.LimitIsIrrelevant` | crates/ask-server/src/embeddings.rs:289-292 | Two limits give the same result |
| `Stats.LoadDistinctDocumentIds` | crates/ask-server/src/http/progress.rs:181-208 | The nested loops collect exactly the documents with a row in one of the states |
| `Stats.LoadClaimedEmbedDocumentIds` | crates/ask-server/src/http/progress.rs:210-242 | The loop collects exactly the documents of the model whose embed job is locked |
| `Stats.LoadDocumentFileTypeCounts` | crates/ask-server/src/http/progress.rs:273-295 | One entry per file type in text order, with the number of its documents |
| `Stats.FileTypeCountsAddUp` | crates/ask-server/src/http/progress.rs:273-295 | The counts by file type add up to all documents |
| `Stats.LoadEmbeddingStatsSnapshot` | crates/ask-server/src/http/progress.rs:121-179 | The counts, and failure exactly when the model has no row at all |
| `Stats.RowCountsAddUp` | crates/ask-server/src/http/progress.rs:297-325 | The row counts by state add up to the total |
| `Stats.RowCountsMean` | crates/ask-server/src/http/progress.rs:297-325 | Each row of the model is counted under its own state |
| `Stats.GroupsMean` | crates/ask-server/src/http/progress.rs:131-164 | Embedded: rows of the model and all Embedded; failed: some row is not and the own embed job of the document is claimed and not yet claimable; recent: an Embedded row at most five minutes old |
| `Stats.LockIsComplementOfClaim` | crates/ask-server/src/http/progress.rs:129 | The lock test is the exact complement of the claim test for unclaimed, claimed and deferred rows |
| `Stats.SnapshotConserves` | crates/ask-server/src/http/progress.rs:154-165 | With the foreign keys, embedded, failed and remaining documents are disjoint and make up all documents, so the remaining count is never negative |
| `Stats.ReachableStats` | crates/ask-server/src/http/progress.rs:154-165 | In every reachable state the numbers add up, and the set difference removes nothing |
| `Stats.ProgressIsPercentage` | crates/ask-server/src/http/progress.rs:332-336 | Progress is between 0 and 100, and 100 exactly when every document is embedded |
| `Stats.ProgressIsShare` | crates/ask-server/src/http/progress.rs:332-336 | In between it is the exact share of embedded documents |
| `GitPlan.GitdirPointsToSubmodule` | crates/ask-server/src/worker/ingest.rs:511-527 | True exactly when `modules` directly follows `.git` among the normal components |
| `GitMarkers.MarkerIs` | crates/ask-server/src/worker/ingest.rs:462-491 | A repository is a `.git` directory with HEAD or a pointer whose normal components do not have `modules` directly after `.git`, a submodule a pointer that does, unmarked anything else but a malformed pointer, which fails |
| `GitPlan.DetectRepoMarker` | crates/ask-server/src/worker/ingest.rs:462-491 | The method computes that marker |
| `GitPlan.BuildGitIngestPlan` | crates/ask-server/src/worker/ingest.rs:382-431 | The stack search terminates, fails exactly on a malformed pointer in a directory it reads, and lists exactly the outermost marked directories in the order in which a stack meets them |
| `GitPlan.ListHasRoots` | crates/ask-server/src/worker/ingest.rs:391-429 | That list has exactly the outermost marked directories |
| `GitPlan.RootsAreListedOnce` | crates/ask-server/src/worker/ingest.rs:391-429 | And none of them twice |
| `GitMarkers.RootsAreByEntry` | crates/ask-server/src/worker/ingest.rs:382-431 | A directory is a repository root if and only if it is reached through open ones and its own `.git` makes it one, and a skipped root besides if and only if its pointer makes it a submodule; no root lies elsewhere |
| `GitMarkers.DescendsIff` | crates/ask-server/src/worker/ingest.rs:408-421 | The search goes on exactly into the subdirectories of a directory without `.git`, with a `.git` directory without HEAD, or with something else |
| `GitMarkers.SearchFailsIff` | crates/ask-server/src/worker/ingest.rs:396 | It fails if and only if a directory so reached has a malformed pointer |
| `GitMarkers.WalkedIff` | crates/ask-server/src/worker/ingest.rs:569-575 | The fallback walk reaches a file if and only if every directory on the way down to it is open |
| `GitPlan.WalkReachesIff` | crates/ask-server/src/worker/ingest.rs:569-575 | The pruned walk reaches a path if and only if no skipped root lies above it |
| `GitPlan.RootsAboveFile` | crates/ask-server/src/worker/ingest.rs:395-422 | The root above a file is its outermost marked ancestor |
| `GitPlan.PlanPartitionsFiles` | crates/ask-server/src/worker/ingest.rs:382-431 | Every file lies in exactly one region, named by its outermost marked ancestor: under one repository root, under one submodule root, or within reach of the fallback walk |
| `GitPlan.RootsAreAntichain` | crates/ask-server/src/worker/ingest.rs:395-422 | No root lies above another |

## Left out

- EmbedResults.NoWorkIsLost: takes each dispatched job as one atomic step, because the code loses work otherwise, as `StaleMarkBeforeCompleteLosesWork` shows.
- Several processes on one database file, and requests whose reads span other commits: one process, and each read, a whole search request included, sees one state.
- Floating point: decayed scores, distances and match scores are reals, so rounding, NaN and the total order on `f64` are not modelled.
- SQLite and sqlite-vec internals: tables are maps, the nearest-rows query is any correct k-nearest answer, and the vector table rejects a vector of another dimension.
- Provider requests over HTTP, retry classification and timeouts: a reply or a classified failure is given for each request; the retry delay is a parameter.
- The file system: file bytes are fixed while one job runs, and hashing is injective, so the bytes stand for the hash.
- Clocks as 64-bit integers: clock values are unbounded integers, so overflow near the ends of the range is not modelled.
- Job payloads as JSON text, the metadata JSON, and the document category: payloads are a datatype, metadata is opaque, the category is constant.
- The order of `list_documents` by path at startup: any listing that names every document once is allowed.
- `upsert_document` on its own, `delete_pending_embeddings_for_model` and lookups by name: the server does not call them.
- Walking ingest folders: path normalisation, file patterns, ignored extensions, gitignore rules and git subprocesses; symbolic links are skipped as in the search.
- HTTP handlers other than search and statistics, trimming of the query text, response paths, logging, configuration, migrations and the frontend: no state of the two cores.
