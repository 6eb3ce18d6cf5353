/** The worker's handling of one claimed `embed_document` entry, statement by statement on the store. */
module Worker {
  import opened Prelude
  import opened Utf8
  import opened Types
  import opened Tables
  import opened Ordering
  import opened JobQueue
  import opened StoreSpec
  import opened StoreInvariant
  import opened StoreSteps
  import opened ContentRead
  import opened ChunkPlanning
  import opened EmbedJob
  import opened EmbedResults
  import opened Database

  // -------------------------------------------------------------------------
  // Vectors
  // -------------------------------------------------------------------------

  method SerializeVector(vector: Vector) returns (bytes: Blob)
    ensures bytes == SerializeEmbedding(vector)
  {
    bytes := [];
    assert vector[..0] == [];
    for k := 0 to |vector|
      invariant bytes == SerializeEmbedding(vector[..k])
    {
      assert vector[..k + 1][..k] == vector[..k];
      var value := vector[k];
      bytes := bytes + [value.b0, value.b1, value.b2, value.b3];
    }
    assert vector[..|vector|] == vector;
  }

  method EmbeddedChunks(prepared: seq<PreparedChunk>, vectors: seq<Vector>) returns (rows: seq<EmbeddedChunk>)
    requires |prepared| == |vectors|
    ensures rows == Embedding(prepared, vectors)
  {
    rows := [];
    for k := 0 to |prepared|
      invariant rows == Embedding(prepared[..k], vectors[..k])
    {
      var bytes := SerializeVector(vectors[k]);
      rows := rows + [EmbeddedChunk(prepared[k].chunk, bytes)];
    }
    assert prepared[..|prepared|] == prepared && vectors[..|vectors|] == vectors;
  }

  /** Equal vectors of `f32` values have equal bytes and no others do. */
  lemma {:induction false} SerializationIsInjective(x: Vector, y: Vector)
    ensures SerializeEmbedding(x) == SerializeEmbedding(y) <==> x == y
  {
    if |x| == |y| && x != [] && SerializeEmbedding(x) == SerializeEmbedding(y) {
      var left, right := SerializeEmbedding(x), SerializeEmbedding(y);
      var n := |x| - 1;
      assert left[..F32_BYTES * n] == SerializeEmbedding(x[..n]);
      assert right[..F32_BYTES * n] == SerializeEmbedding(y[..n]);
      SerializationIsInjective(x[..n], y[..n]);
      assert left[F32_BYTES * n..] == [x[n].b0, x[n].b1, x[n].b2, x[n].b3];
      assert right[F32_BYTES * n..] == [y[n].b0, y[n].b1, y[n].b2, y[n].b3];
      assert x == x[..n] + [x[n]] && y == y[..n] + [y[n]];
    }
  }

  // -------------------------------------------------------------------------
  // The handler
  // -------------------------------------------------------------------------

  /** What a handler reports to the dispatcher. */
  datatype Outcome = Done | Failed | RetryAfter(secs: nat)

  function Finish(db: Db, jobId: int, outcome: Outcome, now: int): Db {
    match outcome
    case Done => db.(jobs := Complete(db.jobs, jobId))
    case Failed => db
    case RetryAfter(secs) => db.(jobs := Defer(db.jobs, jobId, now, secs))
  }

  /** Stores the vectors, one per prepared chunk, or reports why not. */
  method StoreVectors(store: Store, jobId: int, docId: int, modelId: int, prepared: seq<PreparedChunk>,
                      vectors: seq<Vector>, now: int)
    returns (outcome: Outcome)
    requires store.Valid()
    modifies store
    ensures store.Valid()
    ensures Finish(store.Snapshot(), jobId, outcome, now)
         == ApplyTxs(old(store.Snapshot()),
                     StoringTxs(old(store.Snapshot()), jobId, docId, modelId, prepared, vectors, now))
  {
    ghost var db := store.Snapshot();
    hide Inv, ReplaceError, ReplaceEmbeddings, Embedding, ApplyTxs;
    NoTx(db);
    if |vectors| != |prepared| {
      return Failed;
    }
    var embedded := EmbeddedChunks(prepared, vectors);
    TwoTxs(db, ReplaceTx(docId, modelId, embedded, now), CompleteTx(jobId));
    ReplaceFails(db, docId, modelId, embedded, now);
    var error := store.ReplaceEmbeddingsTx(docId, modelId, embedded, now);
    return if error.Some? then Failed else Done;
  }

  /** The embed half: the file is as it was planned. */
  method EmbedRecoverableRows(store: Store, jobId: int, docId: int, modelId: int, file: FileBytes, contentReads: bool,
                              provider: ProviderResult, now: int)
    returns (outcome: Outcome)
    requires store.Valid() && docId in store.documents.rows
    modifies store
    ensures store.Valid()
    ensures Finish(store.Snapshot(), jobId, outcome, now)
         == ApplyTxs(old(store.Snapshot()),
                     EmbedTxs(old(store.Snapshot()), jobId, docId, modelId, file, contentReads, provider, now))
  {
    ghost var db := store.Snapshot();
    hide Inv, ListRecoverable, PreparedChunks, ApplyTxs, StoringTxs;
    NoTx(db);
    OneTx(db, CompleteTx(jobId));
    var filepath := store.documents.rows[docId].filepath;
    var rows := ChunksAt(store.embeddings, ListRecoverable(store.embeddings, docId, modelId));
    if rows == [] {
      return Done;
    }
    if HasContent(rows) && !contentReads {
      return Failed;
    }
    var prepared := PrepareEmbeddedChunks(filepath, file, rows);
    if prepared.Failure? {
      return Failed;
    }
    match provider {
      case Transient(retryAfterSecs) =>
        OneTx(db, QueueTx(DeferOp(jobId, now, retryAfterSecs)));
        return RetryAfter(retryAfterSecs);
      case Permanent =>
        return Failed;
      case Vectors(vectors) =>
        outcome := StoreVectors(store, jobId, docId, modelId, prepared.value, vectors, now);
    }
  }

  /** The replan half: the job row goes first, so its payload can be queued again. */
  method ReplanDocument(store: Store, jobId: int, docId: int, modelId: int, file: FileBytes, contentReads: bool,
                        details: DocumentDetails, now: int)
    returns (outcome: Outcome)
    requires store.Valid() && docId in store.documents.rows && modelId in store.models.rows
    modifies store
    ensures store.Valid()
    ensures Finish(store.Snapshot(), jobId, outcome, now)
         == ApplyTxs(old(store.Snapshot()),
                     ReplanTxs(old(store.documents.rows[docId]), old(store.models.rows[modelId]), modelId, jobId,
                               file, contentReads, details, now))
  {
    ghost var db := store.Snapshot();
    TxKeepsInv(db, CompleteTx(jobId));
    hide Inv, ApplyTxs, PlannedChunks, UpsertAndReplacePending, UpsertDocument;
    OneTx(db, CompleteTx(jobId));
    var doc, model := store.documents.rows[docId], store.models.rows[modelId];
    store.CompleteJob(jobId);
    if !contentReads {
      return Failed;
    }
    var planned := ReplannedDocument(doc, file, details, now);
    var chunks := PlannedChunks(file, model);
    ThreeTxs(db, CompleteTx(jobId), UpsertTx(planned, modelId, chunks, now), CompleteTx(jobId));
    var _ := store.UpsertDocumentAndReplacePending(planned, modelId, chunks, now);
    return Done;
  }

  method ProcessEmbedDocument(store: Store, jobId: int, docId: int, modelId: int, view: FileView,
                              provider: ProviderResult, now: int)
    returns (outcome: Outcome)
    requires store.Valid()
    modifies store
    ensures store.Valid()
    ensures Finish(store.Snapshot(), jobId, outcome, now)
         == ApplyTxs(old(store.Snapshot()), JobTxs(old(store.Snapshot()), jobId, docId, modelId, view, provider, now))
  {
    ghost var db := store.Snapshot();
    hide Inv, ApplyTxs, EmbedTxs, ReplanTxs, DeleteDocument, Complete, Defer;
    NoTx(db);
    if docId !in store.documents.rows {
      TxKeepsInv(db, CompleteTx(jobId));
      TwoTxs(db, CompleteTx(jobId), CompleteTx(jobId));
      store.CompleteJob(jobId);
      return Done;
    }
    if modelId !in store.models.rows {
      return Failed;
    }
    match view {
      case NotFound =>
        TwoTxs(db, DeleteTx(docId), CompleteTx(jobId));
        store.DeleteDocumentTx(docId);
        return Done;
      case MetadataFails =>
        return Failed;
      case HashFails =>
        return Failed;
      case Present(file, contentReads, details) =>
        if FileHash(file) != store.documents.rows[docId].fileHash {
          outcome := ReplanDocument(store, jobId, docId, modelId, file, contentReads, details, now);
        } else {
          outcome := EmbedRecoverableRows(store, jobId, docId, modelId, file, contentReads, provider, now);
        }
    }
  }

  /** The dispatcher: a finished job loses its row, a transient failure moves its claim, and any other
      failure leaves the claim in place. The whole job is the run of its transactions. */
  method DispatchEmbedDocument(store: Store, jobId: int, docId: int, modelId: int, view: FileView,
                               provider: ProviderResult, now: int)
    requires store.Valid()
    modifies store
    ensures store.Valid()
    ensures store.Snapshot()
         == ApplyTxs(old(store.Snapshot()), JobTxs(old(store.Snapshot()), jobId, docId, modelId, view, provider, now))
  {
    ghost var db := store.Snapshot();
    TxsKeepInv(db, JobTxs(db, jobId, docId, modelId, view, provider, now));
    hide Inv, ApplyTxs, JobTxs, Complete, Defer;
    var outcome := ProcessEmbedDocument(store, jobId, docId, modelId, view, provider, now);
    match outcome {
      case Done =>
        store.CompleteJob(jobId);
      case Failed =>
      case RetryAfter(secs) =>
        store.DeferJobForRetry(jobId, now, secs);
    }
  }

  lemma NoTx(db: Db)
    ensures ApplyTxs(db, []) == db
  {
  }

  lemma ReplaceFails(db: Db, docId: int, modelId: int, embedded: seq<EmbeddedChunk>, now: int)
    ensures ReplaceError(db, docId, modelId, embedded, now).Some? ==>
              ReplaceEmbeddings(db, docId, modelId, embedded, now) == db
  {
  }
}
