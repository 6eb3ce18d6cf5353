/** The store as the object that the server updates: tables that statements change one after another,
    inside transactions that roll back as a whole. */
module Database {
  import opened Prelude
  import opened Types
  import opened Tables
  import opened Ordering
  import opened JobQueue
  import opened StoreSpec
  import opened StoreInvariant
  import opened StoreSteps
  import opened Seeding

  // -------------------------------------------------------------------------
  // Statements against their specifications
  // -------------------------------------------------------------------------

  /** With the unique index, updating the conflicting row is updating every row with the key. */
  lemma UpsertOnConflict(rows: Rows, id: int, docId: int, modelId: int, chunk: ChunkRef, now: int)
    requires KeysUnique(rows) && id in rows.rows && SameKey(rows.rows[id], PendingRow(docId, modelId, chunk, now))
    ensures UpsertPendingRow(rows, docId, modelId, chunk, now)
         == rows.(rows := rows.rows[id := PendingRow(docId, modelId, chunk, now)])
  {
    var row := PendingRow(docId, modelId, chunk, now);
    forall other | other in rows.rows && SameKey(rows.rows[other], row)
      ensures other == id
    {
      assert SameKey(rows.rows[other], rows.rows[id]);
    }
  }

  lemma UpsertKeepsKeys(rows: Rows, docId: int, modelId: int, chunk: ChunkRef, now: int)
    requires IdsBelow(rows) && KeysUnique(rows)
    ensures IdsBelow(UpsertPendingRow(rows, docId, modelId, chunk, now))
    ensures KeysUnique(UpsertPendingRow(rows, docId, modelId, chunk, now))
  {
  }

  /** Inserting in order fails at the first chunk whose key an earlier one took. */
  lemma InsertConflict(rows: Rows, mid: Rows, docId: int, modelId: int, chunks: seq<EmbeddedChunk>, k: nat, now: int)
    requires IdsBelow(rows) && k < |chunks|
    requires forall id :: id in rows.rows ==> !IsPair(rows.rows[id], docId, modelId)
    requires mid == InsertEmbeddedRows(rows, docId, modelId, chunks[..k], now)
    ensures (exists id :: id in mid.rows && SameKey(mid.rows[id], EmbeddedRow(docId, modelId, chunks[k], now)))
            <==> exists j :: 0 <= j < k && SameChunkKey(chunks[j], chunks[k])
  {
    InsertEmbeddedAppends(rows, docId, modelId, chunks[..k], now);
    assert Appended(rows, mid, EmbeddedRows(docId, modelId, chunks[..k], now));
    hide InsertEmbeddedRows;
    forall j | 0 <= j < k
      ensures rows.nextId + j in mid.rows && mid.rows[rows.nextId + j] == EmbeddedRow(docId, modelId, chunks[j], now)
    {
    }
    forall id | id in mid.rows && SameKey(mid.rows[id], EmbeddedRow(docId, modelId, chunks[k], now))
      ensures SameChunkKey(chunks[id - rows.nextId], chunks[k]) && rows.nextId <= id < rows.nextId + k
    {
    }
    if j :| 0 <= j < k && SameChunkKey(chunks[j], chunks[k]) {
      assert SameKey(mid.rows[rows.nextId + j], EmbeddedRow(docId, modelId, chunks[k], now));
    }
  }

  predicate SameChunkKey(x: EmbeddedChunk, y: EmbeddedChunk) {
    x.chunk.chunkType == y.chunk.chunkType && x.chunk.start == y.chunk.start
  }

  lemma DistinctSoFar(chunks: seq<EmbeddedChunk>, k: nat)
    requires k < |chunks| && DistinctChunks(chunks[..k])
    ensures DistinctChunks(chunks[..k + 1]) <==> !exists j :: 0 <= j < k && SameChunkKey(chunks[j], chunks[k])
    ensures (exists j :: 0 <= j < k && SameChunkKey(chunks[j], chunks[k])) ==> !DistinctChunks(chunks)
  {
    var upTo := chunks[..k + 1];
    if j :| 0 <= j < k && SameChunkKey(chunks[j], chunks[k]) {
      assert SameChunkKey(upTo[j], upTo[k]);
    } else {
      forall i, j | 0 <= i < j < |upTo|
        ensures !(upTo[i].chunk.chunkType == upTo[j].chunk.chunkType && upTo[i].chunk.start == upTo[j].chunk.start)
      {
        if j < k {
          assert chunks[..k][i] == upTo[i] && chunks[..k][j] == upTo[j];
        } else {
          assert !SameChunkKey(chunks[i], chunks[k]);
        }
      }
    }
  }

  // -------------------------------------------------------------------------
  // The store
  // -------------------------------------------------------------------------

  class Store {
    var documents: Table<Document>
    var models: Table<EmbeddingIdentity>
    var embeddings: Rows
    var jobs: Jobs
    var vec: Option<VecTable>
    var search: Option<SearchState>

    function Snapshot(): Db
      reads this
    {
      Db(documents, models, embeddings, jobs, vec, search)
    }

    ghost predicate Valid()
      reads this
    {
      Inv(Snapshot())
    }

    constructor ()
      ensures Valid() && Snapshot() == EMPTY_DB
    {
      documents, models, embeddings := EmptyTable(), EmptyTable(), EmptyTable();
      jobs, vec, search := EmptyTable(), None, None;
      new;
      EmptyDbIsSound();
    }

    /** A dropped transaction leaves the database as it was when it began. */
    method Rollback(began: Db)
      modifies this
      ensures Snapshot() == began
    {
      documents, models, embeddings := began.documents, began.models, began.embeddings;
      jobs, vec, search := began.jobs, began.vec, began.search;
    }

    // -----------------------------------------------------------------------
    // Vector rows
    // -----------------------------------------------------------------------

    method DeleteVecRows(ids: set<int>)
      modifies `vec
      ensures vec == DeleteVec(old(vec), ids)
    {
      if vec.None? {
        return;
      }
      vec := Some(vec.value.(entries := vec.value.entries - ids));
    }

    method SyncVecRows(docId: int, modelId: int) returns (ok: bool)
      modifies `vec
      ensures ok == (old(vec).Some? ==> VectorsFit(old(vec).value, PairVectors(embeddings, docId, modelId)))
      ensures vec == if ok && old(vec).Some?
                     then Some(InsertVectors(old(vec).value, PairVectors(embeddings, docId, modelId))) else old(vec)
    {
      if vec.None? {
        return true;
      }
      var vectors := PairVectors(embeddings, docId, modelId);
      if !VectorsFit(vec.value, vectors) {
        return false;
      }
      vec := Some(InsertVectors(vec.value, vectors));
      return true;
    }

    // -----------------------------------------------------------------------
    // Job queue
    // -----------------------------------------------------------------------

    method EnqueueJob(payload: JobPayload, now: int) returns (accepted: bool)
      requires JobsOk(jobs)
      modifies `jobs
      ensures JobsOk(jobs)
      ensures jobs == Enqueue(old(jobs), payload, now)
      ensures accepted == EnqueueAccepted(old(jobs), payload, now)
    {
      EnqueueKeepsJobs(jobs, payload, now);
      if id :| id in jobs.rows && jobs.rows[id].payload == payload {
        EnqueueOnConflict(jobs, id, payload, now);
        hide JobsOk, Enqueue, EnqueueAccepted;
        var claim := jobs.rows[id].claimedAt;
        if claim.Some? && claim.value < now - STALE_JOB_AGE_SECS {
          jobs := jobs.(rows := jobs.rows[id := JobRow(payload, None, now)]);
          return true;
        }
        return false;
      }
      jobs := Insert(jobs, JobRow(payload, None, now));
      return true;
    }

    method ClaimJob(now: int) returns (entry: Option<int>)
      modifies `jobs
      ensures jobs == Claim(old(jobs), now)
      ensures entry == PickedJob(old(jobs), now)
    {
      entry := PickedJob(jobs, now);
      if entry.Some? {
        jobs := jobs.(rows := jobs.rows[entry.value := jobs.rows[entry.value].(claimedAt := Some(now))]);
      }
    }

    method DeferJobForRetry(jobId: int, now: int, retryAfterSecs: nat)
      modifies `jobs
      ensures jobs == Defer(old(jobs), jobId, now, retryAfterSecs)
    {
      var clamped := Min(retryAfterSecs, STALE_JOB_AGE_SECS);
      var deferredClaimedAt := now - STALE_JOB_AGE_SECS + (clamped - 1);
      if jobId in jobs.rows {
        jobs := jobs.(rows := jobs.rows[jobId := jobs.rows[jobId].(claimedAt := Some(deferredClaimedAt))]);
      }
    }

    method CompleteJob(jobId: int)
      modifies `jobs
      ensures jobs == Complete(old(jobs), jobId)
    {
      jobs := jobs.(rows := jobs.rows - {jobId});
    }

    /** Queues every recoverable pair, and counts exactly the pairs that the queue accepted. */
    method SeedEmbedJobs(now: int) returns (seeded: nat)
      requires JobsOk(jobs)
      modifies `jobs
      ensures JobsOk(jobs)
      ensures Snapshot() == Seed(old(Snapshot()), now)
      ensures seeded == |AcceptedPairs(old(jobs), embeddings, now)|
    {
      var pairs := Sorted(RecoverablePairs(embeddings));
      SortedPairsAreListing(embeddings);
      ghost var began := jobs;
      seeded := 0;
      assert pairs[..0] == [];
      NothingAccepted(began, now);
      hide Enqueue, EnqueueAccepted, JobsOk, RecoverablePairs, AcceptedPairs, AcceptedAmong, IsPairListing,
        EnqueuePairs, Sorted, PairPayload;
      for k := 0 to |pairs|
        invariant JobsOk(jobs)
        invariant jobs == EnqueuePairs(began, pairs[..k], now)
        invariant seeded == |AcceptedAmong(began, pairs[..k], now)|
      {
        SeedStep(began, embeddings, pairs, k, now);
        var accepted := EnqueueJob(PairPayload(pairs[k]), now);
        if accepted {
          seeded := seeded + 1;
        }
      }
      assert pairs[..|pairs|] == pairs;
      SeedEnds(old(Snapshot()), pairs, now);
    }

    // -----------------------------------------------------------------------
    // Embedding rows
    // -----------------------------------------------------------------------

    /** One execution of the upsert; fails on a missing document or model. */
    method UpsertPending(docId: int, modelId: int, chunk: ChunkRef, now: int) returns (ok: bool)
      requires IdsBelow(embeddings) && KeysUnique(embeddings)
      modifies `embeddings
      ensures IdsBelow(embeddings) && KeysUnique(embeddings)
      ensures ok == (docId in documents.rows && modelId in models.rows)
      ensures embeddings == if ok then UpsertPendingRow(old(embeddings), docId, modelId, chunk, now)
                            else old(embeddings)
    {
      if docId !in documents.rows || modelId !in models.rows {
        return false;
      }
      UpsertKeepsKeys(embeddings, docId, modelId, chunk, now);
      var row := PendingRow(docId, modelId, chunk, now);
      if id :| id in embeddings.rows && SameKey(embeddings.rows[id], row) {
        UpsertOnConflict(embeddings, id, docId, modelId, chunk, now);
        hide UpsertPendingRow, KeysUnique;
        embeddings := embeddings.(rows := embeddings.rows[id := row]);
      } else {
        embeddings := Insert(embeddings, row);
      }
      return true;
    }

    method InsertPendingEmbeddings(docId: int, modelId: int, chunks: seq<ChunkRef>, now: int) returns (ok: bool)
      requires IdsBelow(embeddings) && KeysUnique(embeddings)
      modifies `embeddings, `vec
      ensures IdsBelow(embeddings) && KeysUnique(embeddings)
      ensures ok == (chunks == [] || (docId in documents.rows && modelId in models.rows))
      ensures Snapshot() == if ok then QueuePending(old(Snapshot()), docId, modelId, chunks, now) else old(Snapshot())
    {
      hide KeysUnique, UpsertPendingRow;
      ghost var began := embeddings;
      assert chunks[..0] == [];
      for k := 0 to |chunks|
        invariant IdsBelow(embeddings) && KeysUnique(embeddings)
        invariant embeddings == UpsertPendingRows(began, docId, modelId, chunks[..k], now)
        invariant k > 0 ==> docId in documents.rows && modelId in models.rows
        invariant vec == old(vec)
      {
        assert chunks[..k + 1][..k] == chunks[..k];
        var inserted := UpsertPending(docId, modelId, chunks[k], now);
        if !inserted {
          return false;
        }
      }
      assert chunks[..|chunks|] == chunks;
      DeleteVecRows(NonEmbeddedPairRowIds(embeddings, docId, modelId));
      return true;
    }

    method DeleteEmbeddingsForModel(docId: int, modelId: int)
      modifies `embeddings, `vec
      ensures embeddings == DeletePairRows(old(embeddings), docId, modelId)
      ensures vec == DeleteVec(old(vec), PairRowIds(old(embeddings), docId, modelId))
    {
      DeleteVecRows(PairRowIds(embeddings, docId, modelId));
      embeddings := DeletePairRows(embeddings, docId, modelId);
    }

    /** One execution of the insert; fails on a missing document or model, or a taken key. */
    method InsertEmbedded(docId: int, modelId: int, chunk: EmbeddedChunk, now: int) returns (ok: bool)
      modifies `embeddings
      ensures ok == (docId in documents.rows && modelId in models.rows
                     && !exists id :: id in old(embeddings).rows
                                      && SameKey(old(embeddings).rows[id], EmbeddedRow(docId, modelId, chunk, now)))
      ensures embeddings == if ok then Insert(old(embeddings), EmbeddedRow(docId, modelId, chunk, now))
                            else old(embeddings)
    {
      var row := EmbeddedRow(docId, modelId, chunk, now);
      if docId !in documents.rows || modelId !in models.rows {
        return false;
      }
      if id :| id in embeddings.rows && SameKey(embeddings.rows[id], row) {
        return false;
      }
      embeddings := Insert(embeddings, row);
      return true;
    }

    // -----------------------------------------------------------------------
    // Transactions
    // -----------------------------------------------------------------------

    method MarkDocumentsStaleInTx(docIds: set<int>, now: int)
      requires JobsOk(jobs)
      modifies `embeddings, `vec, `jobs
      ensures JobsOk(jobs)
      ensures Snapshot() == MarkStaleInTx(old(Snapshot()), docIds, now)
    {
      embeddings := MarkStaleRows(embeddings, docIds * documents.rows.Keys);
      DeleteVecRows(DocumentRowIds(embeddings, docIds));
      var _ := SeedEmbedJobs(now);
    }

    method MarkDocumentsStale(docIds: seq<int>, now: int)
      requires Valid()
      modifies this
      ensures Valid()
      ensures Snapshot() == MarkStale(old(Snapshot()), docIds, now)
    {
      TxKeepsInv(Snapshot(), MarkStaleTx(docIds, now));
      if docIds == [] {
        return;
      }
      hide Inv, MarkStaleInTx;
      assert JobsOk(jobs) by { InvParts(Snapshot()); }
      MarkDocumentsStaleInTx(SetOf(docIds), now);
    }

    method UpsertDocumentInTx(doc: Document) returns (docId: int, changed: bool)
      requires JobsOk(jobs)
      modifies `documents, `embeddings, `vec, `jobs
      ensures JobsOk(jobs)
      ensures Upserted(Snapshot(), docId, changed) == UpsertDocument(old(Snapshot()), doc)
    {
      hide MarkStaleInTx;
      match FindByPath(documents, doc.filepath) {
        case Some(id) =>
          if documents.rows[id].fileHash == doc.fileHash {
            return id, false;
          }
          documents := documents.(rows := documents.rows[id := doc]);
          MarkDocumentsStaleInTx({id}, doc.updatedAt);
          return id, true;
        case None =>
          docId := documents.nextId;
          documents := Insert(documents, doc);
          return docId, true;
      }
    }

    /** On failure the result carries no id, and the transaction has been rolled back. */
    method UpsertDocumentAndReplacePending(doc: Document, modelId: int, chunks: seq<ChunkRef>, now: int)
      returns (r: Result<(int, bool), TxError>)
      requires Valid()
      modifies this
      ensures Valid()
      ensures Snapshot() == UpsertAndReplacePending(old(Snapshot()), doc, modelId, chunks, now)
      ensures r.Failure? <==> UpsertFails(old(Snapshot()), doc, modelId, chunks)
      ensures r.Success? ==> var up := UpsertDocument(old(Snapshot()), doc); r.value == (up.docId, up.changed)
    {
      var began := Snapshot();
      TxKeepsInv(began, UpsertTx(doc, modelId, chunks, now));
      UpsertDocumentKeeps(began, doc);
      hide Inv, UpsertDocument, Seed;
      assert JobsOk(jobs) by { InvParts(began); }
      var docId, changed := UpsertDocumentInTx(doc);
      if !changed {
        UnchangedUpsert(began, doc);
        return Success((docId, false));
      }
      assert RowsOk(embeddings) by { InvParts(Snapshot()); }
      DeletePairRowsEffect(embeddings, docId, modelId);
      hide KeysUnique, DeletePairRows, UpsertPendingRows;
      DeleteEmbeddingsForModel(docId, modelId);
      var queued := InsertPendingEmbeddings(docId, modelId, chunks, now);
      if !queued {
        Rollback(began);
        return Failure(ConstraintFailed);
      }
      var _ := SeedEmbedJobs(now);
      return Success((docId, true));
    }

    method DeleteDocumentTx(docId: int)
      requires Valid()
      modifies this
      ensures Valid()
      ensures Snapshot() == DeleteDocument(old(Snapshot()), docId)
    {
      TxKeepsInv(Snapshot(), DeleteTx(docId));
      hide Inv;
      DeleteVecRows(DocumentRowIds(embeddings, {docId}));
      embeddings := DeleteDocumentRows(embeddings, docId);
      documents := documents.(rows := documents.rows - {docId});
    }

    method ChunksHaveLength(chunks: seq<EmbeddedChunk>, expectedBytes: int) returns (ok: bool)
      ensures ok <==> forall k :: 0 <= k < |chunks| ==> |chunks[k].embedding| == expectedBytes
    {
      for k := 0 to |chunks|
        invariant forall j :: 0 <= j < k ==> |chunks[j].embedding| == expectedBytes
      {
        if |chunks[k].embedding| != expectedBytes {
          return false;
        }
      }
      return true;
    }

    /** Inserts in order, and stops at the first row that the constraints refuse. */
    method InsertAllEmbedded(docId: int, modelId: int, chunks: seq<EmbeddedChunk>, now: int) returns (ok: bool)
      requires IdsBelow(embeddings) && modelId in models.rows
      requires forall id :: id in embeddings.rows ==> !IsPair(embeddings.rows[id], docId, modelId)
      modifies `embeddings
      ensures ok == ((chunks == [] || docId in documents.rows) && DistinctChunks(chunks))
      ensures ok ==> embeddings == InsertEmbeddedRows(old(embeddings), docId, modelId, chunks, now)
    {
      ghost var kept := embeddings;
      assert chunks[..0] == [];
      assert DistinctChunks(chunks[..0]);
      hide DistinctChunks;
      for k := 0 to |chunks|
        invariant embeddings == InsertEmbeddedRows(kept, docId, modelId, chunks[..k], now)
        invariant DistinctChunks(chunks[..k])
        invariant k > 0 ==> docId in documents.rows
      {
        assert chunks[..k + 1][..k] == chunks[..k];
        InsertConflict(kept, embeddings, docId, modelId, chunks, k, now);
        DistinctSoFar(chunks, k);
        hide SameKey, SameChunkKey;
        var inserted := InsertEmbedded(docId, modelId, chunks[k], now);
        if !inserted {
          return false;
        }
      }
      assert chunks[..|chunks|] == chunks;
      return true;
    }

    method ReplaceInTx(docId: int, modelId: int, chunks: seq<EmbeddedChunk>, now: int) returns (error: Option<TxError>)
      requires RowsOk(embeddings) && modelId in models.rows
      modifies `embeddings, `vec
      ensures error == ReplaceStatementError(old(Snapshot()), docId, modelId, chunks, now)
      ensures error.None? ==> Snapshot() == Replaced(old(Snapshot()), docId, modelId, chunks, now)
    {
      DeletePairRowsEffect(embeddings, docId, modelId);
      DeleteEmbeddingsForModel(docId, modelId);
      assert IdsBelow(embeddings) by { RowsOkParts(embeddings); }
      hide RowsOk, DeletePairRows, OthersKept, DistinctChunks, InsertEmbeddedRows, PairVectors, VectorsFit;
      var inserted := InsertAllEmbedded(docId, modelId, chunks, now);
      if !inserted {
        return Some(ConstraintFailed);
      }
      var synced := SyncVecRows(docId, modelId);
      return if synced then None else Some(WrongDimension);
    }

    /** Every row of the pair is replaced, or nothing is: any failing statement rolls back. */
    method ReplaceEmbeddingsTx(docId: int, modelId: int, chunks: seq<EmbeddedChunk>, now: int)
      returns (error: Option<TxError>)
      requires Valid()
      modifies this
      ensures Valid()
      ensures Snapshot() == ReplaceEmbeddings(old(Snapshot()), docId, modelId, chunks, now)
      ensures error == ReplaceError(old(Snapshot()), docId, modelId, chunks, now)
    {
      var began := Snapshot();
      TxKeepsInv(began, ReplaceTx(docId, modelId, chunks, now));
      assert RowsOk(embeddings) by { InvParts(began); }
      hide Inv, RowsOk, ReplaceStatementError, Replaced;
      if modelId !in models.rows || models.rows[modelId].dimensions < 0 {
        return Some(ModelMissing);
      }
      var lengthsOk := ChunksHaveLength(chunks, F32_BYTES * models.rows[modelId].dimensions);
      if !lengthsOk {
        return Some(WrongLength);
      }
      error := ReplaceInTx(docId, modelId, chunks, now);
      if error.Some? {
        Rollback(began);
      }
    }

    // -----------------------------------------------------------------------
    // Vector index
    // -----------------------------------------------------------------------

    method BackfillActiveSearchModel(modelId: int, dimensions: int) returns (r: Result<nat, IndexError>)
      requires dimensions > 0
      modifies `vec
      ensures r.Failure? <==> !BackfillChecks(old(Snapshot()), modelId, dimensions)
      ensures Snapshot() == if r.Success? then BackfillVec(old(Snapshot()), modelId) else old(Snapshot())
      ensures r == if r.Success? then Success(|ModelVectors(embeddings, modelId)|) else Failure(InvalidRows)
    {
      if id :| id in embeddings.rows && embeddings.rows[id].modelId == modelId
               && IsVectorRow(embeddings.rows[id])
               && |embeddings.rows[id].embedding.value| != F32_BYTES * dimensions {
        return Failure(InvalidRows);
      }
      var vectors := ModelVectors(embeddings, modelId);
      if vec.Some? {
        vec := Some(InsertVectors(vec.value, vectors));
      }
      return Success(|vectors|);
    }

    /** Each statement commits on its own: an error leaves the ones before it in place. */
    method EnsureActiveSearchModel(modelId: int, dimensions: int) returns (r: Result<nat, IndexError>)
      modifies `vec, `search
      ensures Snapshot() == EnsureIndex(old(Snapshot()), modelId, dimensions)
      ensures r.Failure? <==> EnsureIndexError(old(Snapshot()), modelId, dimensions).Some?
      ensures r.Failure? ==> EnsureIndexError(old(Snapshot()), modelId, dimensions) == Some(r.error)
      ensures r.Success? ==> r.value == if RequiresRebuild(old(Snapshot()), modelId, dimensions)
                                        then |ModelVectors(embeddings, modelId)| else 0
    {
      hide ModelVectors;
      if vec.Some? && search == Some(SearchState(modelId, dimensions)) {
        return Success(0);
      }
      if dimensions <= 0 {
        return Failure(DimensionsNotPositive);
      }
      vec := None;
      vec := Some(VecTable(dimensions, map[]));
      if modelId !in models.rows {
        return Failure(UnknownModel);
      }
      search := Some(SearchState(modelId, dimensions));
      r := BackfillActiveSearchModel(modelId, dimensions);
    }
  }

  lemma UnchangedUpsert(db: Db, doc: Document)
    requires !UpsertDocument(db, doc).changed
    ensures UpsertDocument(db, doc).db == db
  {
  }
}
