/** From planning a document to its embedded rows: one row per planned chunk, each holding the vector
    of exactly the text that the planner saw. */
module PlanThenEmbed {
  import opened Prelude
  import opened Utf8
  import opened Types
  import opened Tables
  import opened Ordering
  import opened JobQueue
  import opened StoreSpec
  import opened StoreInvariant
  import opened StoreSteps
  import opened StoreRuns
  import opened ContentRead
  import opened ChunkPlanning
  import opened EmbedJob
  import opened EmbedResults

  // -------------------------------------------------------------------------
  // Queueing
  // -------------------------------------------------------------------------

  predicate DistinctRefs(chunks: seq<ChunkRef>) {
    forall j, k :: 0 <= j < k < |chunks| ==>
      !(chunks[j].chunkType == chunks[k].chunkType && chunks[j].start == chunks[k].start)
  }

  function PendingRows(docId: int, modelId: int, chunks: seq<ChunkRef>, now: int): seq<EmbeddingRow> {
    seq(|chunks|, k requires 0 <= k < |chunks| => PendingRow(docId, modelId, chunks[k], now))
  }

  ghost predicate PairIsAbsent(rows: Rows, docId: int, modelId: int) {
    forall id :: id in rows.rows ==> !IsPair(rows.rows[id], docId, modelId)
  }

  /** Without a conflict on the unique key, every chunk gets its own new row. */
  lemma {:induction false} UpsertPendingAppends(rows: Rows, docId: int, modelId: int, chunks: seq<ChunkRef>, now: int)
    requires IdsBelow(rows) && PairIsAbsent(rows, docId, modelId) && DistinctRefs(chunks)
    ensures Appended(rows, UpsertPendingRows(rows, docId, modelId, chunks, now),
                     PendingRows(docId, modelId, chunks, now))
  {
    if chunks != [] {
      var init, last := chunks[..|chunks| - 1], chunks[|chunks| - 1];
      UpsertPendingAppends(rows, docId, modelId, init, now);
      var mid := UpsertPendingRows(rows, docId, modelId, init, now);
      var row := PendingRow(docId, modelId, last, now);
      forall id | id in mid.rows
        ensures !SameKey(mid.rows[id], row)
      {
        if id !in rows.rows {
          var k := id - rows.nextId;
          assert mid.rows[id].chunk == chunks[k];
        }
      }
      AppendOne(rows, mid, PendingRows(docId, modelId, init, now), row);
      assert PendingRows(docId, modelId, chunks, now) == PendingRows(docId, modelId, init, now) + [row];
    }
  }

  /** The pair is exactly the planned chunks, one Pending row each, under fresh ids in order. */
  ghost predicate PairAwaitsChunks(before: Rows, after: Rows, docId: int, modelId: int, chunks: seq<ChunkRef>,
                                   now: int)
  {
    && (forall id :: id in after.rows && IsPair(after.rows[id], docId, modelId) ==>
          && before.nextId <= id < before.nextId + |chunks|
          && after.rows[id] == PendingRow(docId, modelId, chunks[id - before.nextId], now))
    && (forall id :: before.nextId <= id < before.nextId + |chunks| ==>
          id in after.rows && IsPair(after.rows[id], docId, modelId))
  }

  lemma ReplacePendingShape(db: Db, docId: int, modelId: int, chunks: seq<ChunkRef>, now: int)
    requires RowsOk(db.embeddings) && DistinctRefs(chunks)
    ensures PairAwaitsChunks(db.embeddings, ReplacePending(db, docId, modelId, chunks, now).embeddings,
                             docId, modelId, chunks, now)
  {
    hide RowsOk, UpsertPendingRows, DistinctRefs, Appended, PairIsAbsent, DeletePairRows, PairAwaitsChunks, IdsBelow;
    var kept := DeletePairRows(db.embeddings, docId, modelId);
    DeletedPairIsAbsent(db.embeddings, docId, modelId);
    UpsertPendingAppends(kept, docId, modelId, chunks, now);
    var after := UpsertPendingRows(kept, docId, modelId, chunks, now);
    AppendedPairAwaits(kept, after, docId, modelId, chunks, now);
    SameNextId(kept, db.embeddings, after, docId, modelId, chunks, now);
  }

  lemma DeletedPairIsAbsent(rows: Rows, docId: int, modelId: int)
    requires RowsOk(rows)
    ensures var kept := DeletePairRows(rows, docId, modelId);
            IdsBelow(kept) && kept.nextId == rows.nextId && PairIsAbsent(kept, docId, modelId)
  {
    RowsOkParts(rows);
    hide RowsOk, KeysUnique, Homogeneous;
  }

  lemma AppendedPairAwaits(before: Rows, after: Rows, docId: int, modelId: int, chunks: seq<ChunkRef>, now: int)
    requires IdsBelow(before) && PairIsAbsent(before, docId, modelId)
    requires Appended(before, after, PendingRows(docId, modelId, chunks, now))
    ensures PairAwaitsChunks(before, after, docId, modelId, chunks, now)
  {
  }

  lemma PlanIsDistinct(file: FileBytes, model: EmbeddingIdentity)
    ensures DistinctRefs(PlannedChunks(file, model))
  {
    hide PlanPendingEmbeddings, PlannerContent;
    var plan := PlannedChunks(file, model);
    forall j, k | 0 <= j < k < |plan|
      ensures !(plan[j].chunkType == plan[k].chunkType && plan[j].start == plan[k].start)
    {
      PlannedKeysAreDistinct(PlannerContent(file), model, j, k);
    }
  }

  lemma UpsertKeepsNextRowId(db: Db, doc: Document)
    ensures UpsertDocument(db, doc).db.embeddings.nextId == db.embeddings.nextId
  {
  }

  /** Storing a changed document queues exactly one Pending row per planned chunk, and its job. */
  lemma UpsertAwaitsPlan(db: Db, doc: Document, modelId: int, file: FileBytes, now: int)
    requires Inv(db) && modelId in db.models.rows && UpsertDocument(db, doc).changed
    ensures var plan := PlannedChunks(file, db.models.rows[modelId]);
            var docId := UpsertDocument(db, doc).docId;
            var after := UpsertAndReplacePending(db, doc, modelId, plan, now);
            && PairAwaitsChunks(db.embeddings, after.embeddings, docId, modelId, plan, now)
            && HasJob(after.jobs, EmbedDocument(docId, modelId))
  {
    hide *;
    var plan := PlannedChunks(file, db.models.rows[modelId]);
    var up := UpsertDocument(db, doc);
    PlanIsDistinct(file, db.models.rows[modelId]);
    PlanIsNotEmpty(file, db.models.rows[modelId]);
    UpsertDocumentKeeps(db, doc);
    UpsertKeepsNextRowId(db, doc);
    InvParts(up.db);
    RowsOkParts(up.db.embeddings);
    ReplacePendingShape(up.db, up.docId, modelId, plan, now);
    UpsertRows(db, doc, modelId, plan, now);
    var planned := UpsertAndReplacePending(db, doc, modelId, plan, now);
    SameNextId(up.db.embeddings, db.embeddings, planned.embeddings, up.docId, modelId, plan, now);
    KnownModelCommits(db, doc, modelId, plan);
    UpsertQueuesEverything(db, doc, modelId, plan, now);
    AwaitedPair(db.embeddings, planned.embeddings, up.docId, modelId, plan, now);
    RecoverablePairIsQueued(planned, up.docId, modelId);
  }

  lemma KnownModelCommits(db: Db, doc: Document, modelId: int, chunks: seq<ChunkRef>)
    requires modelId in db.models.rows
    ensures !UpsertFails(db, doc, modelId, chunks)
  {
  }

  lemma UpsertRows(db: Db, doc: Document, modelId: int, chunks: seq<ChunkRef>, now: int)
    requires UpsertDocument(db, doc).changed && modelId in db.models.rows
    ensures var up := UpsertDocument(db, doc);
            UpsertAndReplacePending(db, doc, modelId, chunks, now).embeddings
            == ReplacePending(up.db, up.docId, modelId, chunks, now).embeddings
  {
    hide UpsertDocument, ReplacePending, SeedJobs;
  }

  lemma SameNextId(before: Rows, other: Rows, after: Rows, docId: int, modelId: int, chunks: seq<ChunkRef>, now: int)
    requires PairAwaitsChunks(before, after, docId, modelId, chunks, now) && before.nextId == other.nextId
    ensures PairAwaitsChunks(other, after, docId, modelId, chunks, now)
  {
  }

  lemma RecoverablePairIsQueued(db: Db, docId: int, modelId: int)
    requires NoLostWork(db) && PairIsRecoverable(db.embeddings, docId, modelId)
    ensures HasJob(db.jobs, EmbedDocument(docId, modelId))
  {
    hide HasJob;
  }

  lemma PlanIsNotEmpty(file: FileBytes, model: EmbeddingIdentity)
    ensures PlannedChunks(file, model) != []
  {
    hide PlannerContent, ContentSpans;
  }

  // -------------------------------------------------------------------------
  // Embedding what was planned
  // -------------------------------------------------------------------------

  ghost predicate OnlyPlanned(rows: Rows, docId: int, modelId: int, plan: seq<ChunkRef>) {
    forall id :: id in rows.rows && IsPair(rows.rows[id], docId, modelId) ==> rows.rows[id].chunk in plan
  }

  /** One vector of the model's dimension per listed row. */
  predicate AnswersEach(db: Db, modelId: int, count: nat, vectors: seq<Vector>)
    requires modelId in db.models.rows
  {
    && |vectors| == count
    && forall k :: 0 <= k < |vectors| ==> |vectors[k]| == db.models.rows[modelId].dimensions
  }

  /** The index, if there is one, was made for the model's dimension. */
  predicate IndexFits(db: Db, modelId: int)
    requires modelId in db.models.rows
  {
    db.vec.Some? ==> db.vec.value.dimensions == db.models.rows[modelId].dimensions
  }

  /** Replacing the rows of a pair by right answers fails exactly when the index has another dimension. */
  lemma ReplaceFailsIff(db: Db, docId: int, modelId: int, prepared: seq<PreparedChunk>, vectors: seq<Vector>, now: int)
    requires Inv(db) && docId in db.documents.rows && modelId in db.models.rows
    requires |prepared| == |vectors| > 0 && AnswersEach(db, modelId, |vectors|, vectors)
    requires DistinctChunks(Embedding(prepared, vectors))
    ensures ReplaceError(db, docId, modelId, Embedding(prepared, vectors), now)
         == if IndexFits(db, modelId) then None else Some(WrongDimension)
  {
    var embedded := Embedding(prepared, vectors);
    var dimensions := db.models.rows[modelId].dimensions;
    hide Inv, RowsOk, KeysUnique, Homogeneous, OthersKept, ReplacedRows, DistinctChunks, PairHoldsChunks, PairVectors,
      VectorsFit;
    DimensionsArePositive(db, modelId);
    assert forall k :: 0 <= k < |embedded| ==> |embedded[k].embedding| == F32_BYTES * dimensions;
    hide SerializeEmbedding;
    InvParts(db);
    RowsOkParts(db.embeddings);
    ReplacedRowsEffect(db, docId, modelId, embedded, now);
    var rows := ReplacedRows(db, docId, modelId, embedded, now);
    if db.vec.Some? { NewVectorsFitIff(db.embeddings, rows, docId, modelId, embedded, now, db.vec.value, dimensions); }
  }

  lemma NewVectorsFitIff(before: Rows, after: Rows, docId: int, modelId: int, embedded: seq<EmbeddedChunk>, now: int,
                         vec: VecTable, dimensions: int)
    requires PairHoldsChunks(before, after, docId, modelId, embedded, now) && embedded != []
    requires forall k :: 0 <= k < |embedded| ==> |embedded[k].embedding| == F32_BYTES * dimensions
    ensures VectorsFit(vec, PairVectors(after, docId, modelId)) <==> vec.dimensions == dimensions
  {
    var vectors := PairVectors(after, docId, modelId);
    assert after.rows[before.nextId] == EmbeddedRow(docId, modelId, embedded[0], now);
    assert before.nextId in vectors;
    forall id | id in vectors
      ensures |vectors[id]| == F32_BYTES * dimensions
    {
      assert after.rows[id] == EmbeddedRow(docId, modelId, embedded[id - before.nextId], now);
    }
  }

  /** The row holds the vector that the provider computed for this input, and the input is what the
      planner saw at the row's offsets. */
  ghost predicate IsEmbeddedFrom(filepath: Path, file: FileBytes, row: EmbeddingRow, input: PreparedChunk,
                                 vector: Vector)
  {
    && row.state == Embedded
    && row.embedding == Some(SerializeEmbedding(vector))
    && SeesPlannedText(filepath, file, row.chunk, input)
  }

  ghost predicate PairIsEmbeddedFrom(rows: Rows, docId: int, modelId: int, filepath: Path, file: FileBytes,
                                     inputs: seq<PreparedChunk>, vectors: seq<Vector>)
    requires |inputs| == |vectors|
  {
    forall id :: id in rows.rows && IsPair(rows.rows[id], docId, modelId) ==>
      exists k :: 0 <= k < |inputs| && IsEmbeddedFrom(filepath, file, rows.rows[id], inputs[k], vectors[k])
  }

  lemma RowsHoldTheirVectors(before: Rows, after: Rows, docId: int, modelId: int, filepath: Path, file: FileBytes,
                             chunks: seq<ChunkRef>, inputs: seq<PreparedChunk>, vectors: seq<Vector>, now: int)
    requires |inputs| == |vectors| == |chunks|
    requires forall k :: 0 <= k < |chunks| ==> SeesPlannedText(filepath, file, chunks[k], inputs[k])
    requires PairHoldsChunks(before, after, docId, modelId, Embedding(inputs, vectors), now)
    ensures PairIsEmbeddedFrom(after, docId, modelId, filepath, file, inputs, vectors)
  {
    hide IsPlannedRange, SerializeEmbedding;
    var embedded := Embedding(inputs, vectors);
    forall id | id in after.rows && IsPair(after.rows[id], docId, modelId)
      ensures exists k :: 0 <= k < |inputs| && IsEmbeddedFrom(filepath, file, after.rows[id], inputs[k], vectors[k])
    {
      var k := id - before.nextId;
      assert after.rows[id] == EmbeddedRow(docId, modelId, embedded[k], now);
      assert inputs[k].chunk == chunks[k];
      assert IsEmbeddedFrom(filepath, file, after.rows[id], inputs[k], vectors[k]);
    }
  }

  /** What a successful job leaves: the pair Embedded over the same chunks, every row with the vector of
      exactly its planned text, nothing else changed, and no entry. */
  ghost predicate IsFulfilled(before: Db, after: Db, jobId: int, docId: int, modelId: int, filepath: Path,
                              file: FileBytes, inputs: seq<PreparedChunk>, vectors: seq<Vector>)
  {
    && |inputs| == |vectors|
    && PairIsEmbeddedFrom(after.embeddings, docId, modelId, filepath, file, inputs, vectors)
    && SameChunks(before.embeddings, after.embeddings, docId, modelId)
    && OthersKept(before.embeddings, after.embeddings, docId, modelId)
    && jobId !in after.jobs.rows
  }

  /** A dispatched job whose pair needs embedding, whose rows were planned from the unchanged file and
      whose provider answers, succeeds exactly when the index fits the model; otherwise the store
      refuses the vectors and nothing changes. */
  lemma EmbedFulfilsPlan(db: Db, jobId: int, docId: int, modelId: int, file: FileBytes, details: DocumentDetails,
                         vectors: seq<Vector>, now: int)
    requires Inv(db) && docId in db.documents.rows && modelId in db.models.rows
    requires db.documents.rows[docId].fileHash == FileHash(file)
    requires OnlyPlanned(db.embeddings, docId, modelId, PlannedChunks(file, db.models.rows[modelId]))
    requires PairIsRecoverable(db.embeddings, docId, modelId)
    requires AnswersEach(db, modelId, |ListRecoverable(db.embeddings, docId, modelId)|, vectors)
    ensures var filepath := db.documents.rows[docId].filepath;
            var chunks := ChunksAt(db.embeddings, ListRecoverable(db.embeddings, docId, modelId));
            var prepared := PreparedChunks(filepath, file, chunks);
            var txs := JobTxs(db, jobId, docId, modelId, Present(file, true, details), Vectors(vectors), now);
            var after := ApplyTxs(db, txs);
            && prepared.Success?
            && if IndexFits(db, modelId)
               then IsFulfilled(db, after, jobId, docId, modelId, filepath, file, prepared.value, vectors)
               else after == db
  {
    hide *;
    var filepath := db.documents.rows[docId].filepath;
    var ids := ListRecoverable(db.embeddings, docId, modelId);
    var chunks := ChunksAt(db.embeddings, ids);
    ListedChunksArePlanned(db.embeddings, docId, modelId, PlannedChunks(file, db.models.rows[modelId]));
    EmbedSeesPlannedText(filepath, file, db.models.rows[modelId], chunks);
    ListIsNotEmpty(db.embeddings, docId, modelId);
    var prepared := PreparedChunks(filepath, file, chunks).value;
    ChunksAtShape(db.embeddings, ids);
    AnswersCount(db, modelId, |ids|, vectors);
    PreparedInOrder(filepath, file, chunks, vectors);
    var embedded := Embedding(prepared, vectors);
    InvParts(db);
    RowsOkParts(db.embeddings);
    ListedIsListed(db.embeddings, docId, modelId, embedded);
    ListedChunksAreDistinct(db.embeddings, docId, modelId, embedded);
    ReplaceFailsIff(db, docId, modelId, prepared, vectors, now);
    if IndexFits(db, modelId) {
      ReplaceEmbedsPair(db, docId, modelId, embedded, now);
      var rows := ReplaceEmbeddings(db, docId, modelId, embedded, now).embeddings;
      RowsHoldTheirVectors(db.embeddings, rows, docId, modelId, filepath, file, chunks, prepared, vectors, now);
      JobEmbeds(db, jobId, docId, modelId, file, details, vectors, now);
      var txs := JobTxs(db, jobId, docId, modelId, Present(file, true, details), Vectors(vectors), now);
      Fulfilled(db, ApplyTxs(db, txs), jobId, docId, modelId, filepath, file, prepared, vectors);
    } else {
      JobIsRefused(db, jobId, docId, modelId, file, details, vectors, now);
    }
  }

  lemma Fulfilled(before: Db, after: Db, jobId: int, docId: int, modelId: int, filepath: Path, file: FileBytes,
                  inputs: seq<PreparedChunk>, vectors: seq<Vector>)
    requires |inputs| == |vectors|
    requires PairIsEmbeddedFrom(after.embeddings, docId, modelId, filepath, file, inputs, vectors)
    requires SameChunks(before.embeddings, after.embeddings, docId, modelId)
    requires OthersKept(before.embeddings, after.embeddings, docId, modelId)
    requires jobId !in after.jobs.rows
    ensures IsFulfilled(before, after, jobId, docId, modelId, filepath, file, inputs, vectors)
  {
  }

  lemma ListedChunksArePlanned(rows: Rows, docId: int, modelId: int, plan: seq<ChunkRef>)
    requires OnlyPlanned(rows, docId, modelId, plan)
    ensures var chunks := ChunksAt(rows, ListRecoverable(rows, docId, modelId));
            forall k :: 0 <= k < |chunks| ==> chunks[k] in plan
  {
  }

  lemma ListIsNotEmpty(rows: Rows, docId: int, modelId: int)
    requires PairIsRecoverable(rows, docId, modelId)
    ensures ListRecoverable(rows, docId, modelId) != []
  {
    ListIsComplete(rows, docId, modelId);
  }

  lemma ChunksAtShape(rows: Rows, ids: seq<int>)
    requires forall k :: 0 <= k < |ids| ==> ids[k] in rows.rows
    ensures |ChunksAt(rows, ids)| == |ids|
    ensures forall k :: 0 <= k < |ids| ==> ChunksAt(rows, ids)[k] == rows.rows[ids[k]].chunk
  {
  }

  lemma AnswersCount(db: Db, modelId: int, count: nat, vectors: seq<Vector>)
    requires modelId in db.models.rows && AnswersEach(db, modelId, count, vectors)
    ensures |vectors| == count && AnswersEach(db, modelId, |vectors|, vectors)
  {
  }

  lemma ListedIsListed(rows: Rows, docId: int, modelId: int, embedded: seq<EmbeddedChunk>)
    requires var ids := ListRecoverable(rows, docId, modelId);
             && ids != [] && |embedded| == |ids|
             && forall k :: 0 <= k < |ids| ==> embedded[k].chunk == rows.rows[ids[k]].chunk
    ensures IsListed(rows, docId, modelId, embedded)
  {
  }

  lemma JobEmbeds(db: Db, jobId: int, docId: int, modelId: int, file: FileBytes, details: DocumentDetails,
                  vectors: seq<Vector>, now: int)
    requires docId in db.documents.rows && modelId in db.models.rows
    requires db.documents.rows[docId].fileHash == FileHash(file)
    requires ListRecoverable(db.embeddings, docId, modelId) != []
    requires var chunks := ChunksAt(db.embeddings, ListRecoverable(db.embeddings, docId, modelId));
             var prepared := PreparedChunks(db.documents.rows[docId].filepath, file, chunks);
             && prepared.Success? && |prepared.value| == |vectors|
             && ReplaceError(db, docId, modelId, Embedding(prepared.value, vectors), now).None?
    ensures var chunks := ChunksAt(db.embeddings, ListRecoverable(db.embeddings, docId, modelId));
            var embedded := Embedding(PreparedChunks(db.documents.rows[docId].filepath, file, chunks).value, vectors);
            var after := ApplyTxs(db, JobTxs(db, jobId, docId, modelId, Present(file, true, details),
                                             Vectors(vectors), now));
            && after.embeddings == ReplaceEmbeddings(db, docId, modelId, embedded, now).embeddings
            && jobId !in after.jobs.rows
  {
    hide ListRecoverable, PreparedChunks, ReplaceError, ReplaceEmbeddings, Embedding, ApplyTxs;
    var chunks := ChunksAt(db.embeddings, ListRecoverable(db.embeddings, docId, modelId));
    var embedded := Embedding(PreparedChunks(db.documents.rows[docId].filepath, file, chunks).value, vectors);
    TwoTxs(db, ReplaceTx(docId, modelId, embedded, now), CompleteTx(jobId));
  }

  lemma JobIsRefused(db: Db, jobId: int, docId: int, modelId: int, file: FileBytes, details: DocumentDetails,
                     vectors: seq<Vector>, now: int)
    requires docId in db.documents.rows && modelId in db.models.rows
    requires db.documents.rows[docId].fileHash == FileHash(file)
    requires ListRecoverable(db.embeddings, docId, modelId) != []
    requires var chunks := ChunksAt(db.embeddings, ListRecoverable(db.embeddings, docId, modelId));
             var prepared := PreparedChunks(db.documents.rows[docId].filepath, file, chunks);
             && prepared.Success? && |prepared.value| == |vectors|
             && ReplaceError(db, docId, modelId, Embedding(prepared.value, vectors), now).Some?
    ensures ApplyTxs(db, JobTxs(db, jobId, docId, modelId, Present(file, true, details), Vectors(vectors), now)) == db
  {
    hide ListRecoverable, PreparedChunks, ReplaceError, Embedding;
  }

  /** Both halves together: store a changed file, then dispatch its job on the same file. If the index
      fits the model, every row of the pair is one planned chunk with the vector of its planned text,
      and no planned chunk is without a row; otherwise the job changes nothing. */
  lemma PlanThenEmbedIsExact(db: Db, doc: Document, modelId: int, file: FileBytes, jobId: int,
                             details: DocumentDetails, vectors: seq<Vector>, now: int, later: int)
    requires Inv(db) && modelId in db.models.rows && UpsertDocument(db, doc).changed && doc.fileHash == FileHash(file)
    requires var planned := UpsertAndReplacePending(db, doc, modelId, PlannedChunks(file, db.models.rows[modelId]),
                                                    now);
             && modelId in planned.models.rows
             && AnswersEach(planned, modelId,
                            |ListRecoverable(planned.embeddings, UpsertDocument(db, doc).docId, modelId)|, vectors)
    ensures var plan := PlannedChunks(file, db.models.rows[modelId]);
            var planned := UpsertAndReplacePending(db, doc, modelId, plan, now);
            var docId := UpsertDocument(db, doc).docId;
            var after := ApplyTxs(planned, JobTxs(planned, jobId, docId, modelId, Present(file, true, details),
                                                  Vectors(vectors), later));
            var prepared := PreparedChunks(doc.filepath, file,
                                           ChunksAt(planned.embeddings,
                                                    ListRecoverable(planned.embeddings, docId, modelId)));
            && prepared.Success? && |prepared.value| == |vectors|
            && if IndexFits(db, modelId)
               then IsExactlyPlanned(after, docId, modelId, doc.filepath, file, prepared.value, vectors, plan)
               else after == planned
  {
    hide *;
    var plan := PlannedChunks(file, db.models.rows[modelId]);
    var planned := UpsertAndReplacePending(db, doc, modelId, plan, now);
    var docId := UpsertDocument(db, doc).docId;
    UpsertAwaitsPlan(db, doc, modelId, file, now);
    UpsertTxKeeps(db, doc, modelId, plan, now);
    PlanIsNotEmpty(file, db.models.rows[modelId]);
    StoredDocument(db, doc, modelId, plan, now);
    StoredIndexFits(db, planned, modelId);
    AwaitedPair(db.embeddings, planned.embeddings, docId, modelId, plan, now);
    EmbedFulfilsPlan(planned, jobId, docId, modelId, file, details, vectors, later);
    PreparedCount(planned, docId, modelId, doc.filepath, file, vectors);
    if IndexFits(db, modelId) {
      var after := ApplyTxs(planned, JobTxs(planned, jobId, docId, modelId, Present(file, true, details),
                                            Vectors(vectors), later));
      var inputs := PreparedChunks(doc.filepath, file,
                                   ChunksAt(planned.embeddings,
                                            ListRecoverable(planned.embeddings, docId, modelId))).value;
      FulfilledPlan(db.embeddings, planned, after, jobId, docId, modelId, doc.filepath, file, inputs, vectors, plan,
                    now);
    }
  }

  /** One row per planned chunk and no others, each with the vector of its planned text. */
  ghost predicate IsExactlyPlanned(db: Db, docId: int, modelId: int, filepath: Path, file: FileBytes,
                                   inputs: seq<PreparedChunk>, vectors: seq<Vector>, plan: seq<ChunkRef>)
  {
    && |inputs| == |vectors|
    && PairIsEmbeddedFrom(db.embeddings, docId, modelId, filepath, file, inputs, vectors)
    && (forall k :: 0 <= k < |plan| ==> HasChunk(db.embeddings, docId, modelId, plan[k]))
    && OnlyPlanned(db.embeddings, docId, modelId, plan)
  }

  lemma FulfilledPlan(before: Rows, planned: Db, after: Db, jobId: int, docId: int, modelId: int, filepath: Path,
                      file: FileBytes, inputs: seq<PreparedChunk>, vectors: seq<Vector>, plan: seq<ChunkRef>, now: int)
    requires IsFulfilled(planned, after, jobId, docId, modelId, filepath, file, inputs, vectors)
    requires PairAwaitsChunks(before, planned.embeddings, docId, modelId, plan, now)
    requires OnlyPlanned(planned.embeddings, docId, modelId, plan)
    ensures IsExactlyPlanned(after, docId, modelId, filepath, file, inputs, vectors, plan)
  {
    hide PairAwaitsChunks, SameChunks, OnlyPlanned, HasChunk, PairIsEmbeddedFrom, OthersKept;
    AwaitedChunksRemain(before, planned.embeddings, after.embeddings, docId, modelId, plan, now);
    NoOtherChunks(planned.embeddings, after.embeddings, docId, modelId, plan);
  }

  lemma PreparedCount(db: Db, docId: int, modelId: int, filepath: Path, file: FileBytes, vectors: seq<Vector>)
    requires modelId in db.models.rows
    requires AnswersEach(db, modelId, |ListRecoverable(db.embeddings, docId, modelId)|, vectors)
    ensures var prepared := PreparedChunks(filepath, file,
                                           ChunksAt(db.embeddings, ListRecoverable(db.embeddings, docId, modelId)));
            prepared.Success? ==> |prepared.value| == |vectors|
  {
    hide ListRecoverable;
  }

  lemma StoredIndexFits(db: Db, planned: Db, modelId: int)
    requires modelId in db.models.rows && planned.models == db.models
    requires planned.vec.Some? == db.vec.Some?
    requires planned.vec.Some? ==> planned.vec.value.dimensions == db.vec.value.dimensions
    ensures IndexFits(planned, modelId) == IndexFits(db, modelId)
  {
  }

  lemma StoredDocument(db: Db, doc: Document, modelId: int, chunks: seq<ChunkRef>, now: int)
    requires Inv(db) && modelId in db.models.rows && UpsertDocument(db, doc).changed
    ensures var after := UpsertAndReplacePending(db, doc, modelId, chunks, now);
            var docId := UpsertDocument(db, doc).docId;
            && docId in after.documents.rows && after.documents.rows[docId] == doc
            && after.models == db.models && after.vec.Some? == db.vec.Some?
            && (after.vec.Some? ==> after.vec.value.dimensions == db.vec.value.dimensions)
  {
    hide Inv, SeedJobs, UpsertPendingRows, DeletePairRows, MarkStaleRows;
  }

  lemma AwaitedPair(before: Rows, planned: Rows, docId: int, modelId: int, plan: seq<ChunkRef>, now: int)
    requires PairAwaitsChunks(before, planned, docId, modelId, plan, now) && plan != []
    ensures OnlyPlanned(planned, docId, modelId, plan)
    ensures PairIsRecoverable(planned, docId, modelId)
  {
    assert planned.rows[before.nextId] == PendingRow(docId, modelId, plan[0], now);
  }

  lemma AwaitedChunksRemain(before: Rows, planned: Rows, after: Rows, docId: int, modelId: int,
                            plan: seq<ChunkRef>, now: int)
    requires PairAwaitsChunks(before, planned, docId, modelId, plan, now)
    requires SameChunks(planned, after, docId, modelId)
    ensures forall k :: 0 <= k < |plan| ==> HasChunk(after, docId, modelId, plan[k])
  {
    forall k | 0 <= k < |plan|
      ensures HasChunk(planned, docId, modelId, plan[k])
    {
      assert planned.rows[before.nextId + k].chunk == plan[k];
    }
  }

  lemma NoOtherChunks(planned: Rows, after: Rows, docId: int, modelId: int, plan: seq<ChunkRef>)
    requires OnlyPlanned(planned, docId, modelId, plan)
    requires SameChunks(planned, after, docId, modelId)
    ensures OnlyPlanned(after, docId, modelId, plan)
  {
    forall id | id in after.rows && IsPair(after.rows[id], docId, modelId)
      ensures after.rows[id].chunk in plan
    {
      assert HasChunk(after, docId, modelId, after.rows[id].chunk);
    }
  }

  // -------------------------------------------------------------------------
  // Embedded text is found
  // -------------------------------------------------------------------------

  lemma {:induction false} TxsKeepConfiguration(db: Db, txs: seq<Tx>)
    ensures var after := ApplyTxs(db, txs);
            && after.models == db.models && after.search == db.search && after.vec.Some? == db.vec.Some?
            && (after.vec.Some? ==> after.vec.value.dimensions == db.vec.value.dimensions)
    decreases |txs|
  {
    hide ApplyTx;
    if txs != [] {
      TxKeepsConfiguration(db, txs[0]);
      TxsKeepConfiguration(ApplyTx(db, txs[0]), txs[1..]);
    }
  }

  /** Every row of the pair is indexed with exactly its own bytes. */
  ghost predicate PairIsIndexed(db: Db, docId: int, modelId: int) {
    db.vec.Some?
    && forall id :: id in db.embeddings.rows && IsPair(db.embeddings.rows[id], docId, modelId) ==>
         id in db.vec.value.entries && db.embeddings.rows[id].embedding == Some(db.vec.value.entries[id])
  }

  /** In every reachable serving state, unless an index build was torn: storing a changed file and
      dispatching its job for the served model gives one row per planned chunk, each with the vector
      of its planned text, and each found through the index at once. */
  lemma ServedPlanIsSearchable(sys: Sys, doc: Document, file: FileBytes, jobId: int, details: DocumentDetails,
                               vectors: seq<Vector>, now: int, later: int)
    requires IsReachable(sys) && sys.phase.Serving? && !sys.torn && sys.phase.modelId in sys.db.models.rows
    requires UpsertDocument(sys.db, doc).changed && doc.fileHash == FileHash(file)
    requires var modelId := sys.phase.modelId;
             var planned := UpsertAndReplacePending(sys.db, doc, modelId,
                                                    PlannedChunks(file, sys.db.models.rows[modelId]), now);
             && modelId in planned.models.rows
             && AnswersEach(planned, modelId,
                            |ListRecoverable(planned.embeddings, UpsertDocument(sys.db, doc).docId, modelId)|, vectors)
    ensures var modelId, docId := sys.phase.modelId, UpsertDocument(sys.db, doc).docId;
            var plan := PlannedChunks(file, sys.db.models.rows[modelId]);
            var planned := UpsertAndReplacePending(sys.db, doc, modelId, plan, now);
            var after := ApplyTxs(planned, JobTxs(planned, jobId, docId, modelId, Present(file, true, details),
                                                  Vectors(vectors), later));
            var prepared := PreparedChunks(doc.filepath, file,
                                           ChunksAt(planned.embeddings,
                                                    ListRecoverable(planned.embeddings, docId, modelId)));
            && prepared.Success?
            && IsExactlyPlanned(after, docId, modelId, doc.filepath, file, prepared.value, vectors, plan)
            && PairIsIndexed(after, docId, modelId)
  {
    hide *;
    var modelId, docId := sys.phase.modelId, UpsertDocument(sys.db, doc).docId;
    ServedIndex(sys);
    var plan := PlannedChunks(file, sys.db.models.rows[modelId]);
    var planned := UpsertAndReplacePending(sys.db, doc, modelId, plan, now);
    PlanThenEmbedIsExact(sys.db, doc, modelId, file, jobId, details, vectors, now, later);
    UpsertTxKeeps(sys.db, doc, modelId, plan, now);
    UpsertKeepsConfiguration(sys.db, doc, modelId, plan, now);
    var txs := JobTxs(planned, jobId, docId, modelId, Present(file, true, details), Vectors(vectors), later);
    TxsKeepInv(planned, txs);
    TxsKeepConfiguration(planned, txs);
    var inputs := PreparedChunks(doc.filepath, file,
                                 ChunksAt(planned.embeddings,
                                          ListRecoverable(planned.embeddings, docId, modelId))).value;
    ExactlyPlannedIsEmbedded(ApplyTxs(planned, txs), docId, modelId, doc.filepath, file, inputs, vectors, plan);
    IndexedBytes(ApplyTxs(planned, txs), docId, modelId, doc.filepath, file, inputs, vectors);
  }

  /** The same for any pair of the served model that needs embedding over planned chunks, stale ones
      included: everything that the job embeds is indexed at once. */
  lemma EmbeddedRowsAreIndexed(sys: Sys, jobId: int, docId: int, file: FileBytes, details: DocumentDetails,
                               vectors: seq<Vector>, now: int)
    requires IsReachable(sys) && sys.phase.Serving? && !sys.torn && sys.phase.modelId in sys.db.models.rows
    requires docId in sys.db.documents.rows && sys.db.documents.rows[docId].fileHash == FileHash(file)
    requires OnlyPlanned(sys.db.embeddings, docId, sys.phase.modelId,
                         PlannedChunks(file, sys.db.models.rows[sys.phase.modelId]))
    requires PairIsRecoverable(sys.db.embeddings, docId, sys.phase.modelId)
    requires AnswersEach(sys.db, sys.phase.modelId,
                         |ListRecoverable(sys.db.embeddings, docId, sys.phase.modelId)|, vectors)
    ensures var modelId := sys.phase.modelId;
            var after := ApplyTxs(sys.db, JobTxs(sys.db, jobId, docId, modelId, Present(file, true, details),
                                                 Vectors(vectors), now));
            var prepared := PreparedChunks(sys.db.documents.rows[docId].filepath, file,
                                           ChunksAt(sys.db.embeddings,
                                                    ListRecoverable(sys.db.embeddings, docId, modelId)));
            && prepared.Success?
            && IsFulfilled(sys.db, after, jobId, docId, modelId, sys.db.documents.rows[docId].filepath, file,
                           prepared.value, vectors)
            && PairIsIndexed(after, docId, modelId)
  {
    hide *;
    var modelId := sys.phase.modelId;
    ServedIndex(sys);
    EmbedFulfilsPlan(sys.db, jobId, docId, modelId, file, details, vectors, now);
    var txs := JobTxs(sys.db, jobId, docId, modelId, Present(file, true, details), Vectors(vectors), now);
    TxsKeepInv(sys.db, txs);
    TxsKeepConfiguration(sys.db, txs);
    var filepath := sys.db.documents.rows[docId].filepath;
    var inputs := PreparedChunks(filepath, file,
                                 ChunksAt(sys.db.embeddings, ListRecoverable(sys.db.embeddings, docId, modelId))).value;
    FulfilledIsEmbedded(sys.db, ApplyTxs(sys.db, txs), jobId, docId, modelId, filepath, file, inputs, vectors);
    IndexedBytes(ApplyTxs(sys.db, txs), docId, modelId, filepath, file, inputs, vectors);
  }

  lemma FulfilledIsEmbedded(before: Db, after: Db, jobId: int, docId: int, modelId: int, filepath: Path,
                            file: FileBytes, inputs: seq<PreparedChunk>, vectors: seq<Vector>)
    requires IsFulfilled(before, after, jobId, docId, modelId, filepath, file, inputs, vectors)
    ensures |inputs| == |vectors|
    ensures PairIsEmbeddedFrom(after.embeddings, docId, modelId, filepath, file, inputs, vectors)
  {
  }

  lemma ServedIndex(sys: Sys)
    requires IsReachable(sys) && sys.phase.Serving? && !sys.torn && sys.phase.modelId in sys.db.models.rows
    ensures Inv(sys.db) && IndexComplete(sys.db) && IndexFits(sys.db, sys.phase.modelId)
    ensures sys.db.vec.Some? && sys.db.search.Some? && sys.db.search.value.activeModelId == sys.phase.modelId
  {
    hide IsReachable, Inv;
    ReachableIsSound(sys);
  }

  lemma UpsertKeepsConfiguration(db: Db, doc: Document, modelId: int, chunks: seq<ChunkRef>, now: int)
    ensures var after := UpsertAndReplacePending(db, doc, modelId, chunks, now);
            && after.models == db.models && after.search == db.search && after.vec.Some? == db.vec.Some?
  {
    TxKeepsConfiguration(db, UpsertTx(doc, modelId, chunks, now));
    hide UpsertAndReplacePending;
  }

  lemma ExactlyPlannedIsEmbedded(db: Db, docId: int, modelId: int, filepath: Path, file: FileBytes,
                                 inputs: seq<PreparedChunk>, vectors: seq<Vector>, plan: seq<ChunkRef>)
    requires IsExactlyPlanned(db, docId, modelId, filepath, file, inputs, vectors, plan)
    ensures |inputs| == |vectors| && PairIsEmbeddedFrom(db.embeddings, docId, modelId, filepath, file, inputs, vectors)
  {
  }

  lemma IndexedBytes(db: Db, docId: int, modelId: int, filepath: Path, file: FileBytes, inputs: seq<PreparedChunk>,
                     vectors: seq<Vector>)
    requires Inv(db) && IndexComplete(db)
    requires db.vec.Some? && db.search.Some? && db.search.value.activeModelId == modelId
    requires |inputs| == |vectors| && PairIsEmbeddedFrom(db.embeddings, docId, modelId, filepath, file, inputs, vectors)
    ensures PairIsIndexed(db, docId, modelId)
  {
    hide RowsOk, JobsOk, PathsUnique, ModelsOk, RowsSound, SeesPlannedText, SerializeEmbedding;
  }
}
