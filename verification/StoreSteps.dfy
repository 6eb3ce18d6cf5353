/** Every transaction of the server keeps the invariant and, once complete, the index. */
module StoreSteps {
  import opened Prelude
  import opened Types
  import opened Tables
  import opened Ordering
  import opened JobQueue
  import opened StoreSpec
  import opened StoreInvariant

  // -------------------------------------------------------------------------
  // Queue
  // -------------------------------------------------------------------------

  lemma QueueOpKeepsJobs(jobs: Jobs, op: QueueOp)
    requires JobsOk(jobs)
    ensures JobsOk(ApplyOp(jobs, op))
    ensures jobs.nextId <= ApplyOp(jobs, op).nextId
  {
    if op.EnqueueOp? { EnqueueKeepsJobs(jobs, op.payload, op.now); }
  }

  lemma {:induction false} EnqueuePairsKeepsJobs(jobs: Jobs, pairs: seq<Key>, now: int)
    requires JobsOk(jobs)
    ensures var after := EnqueuePairs(jobs, pairs, now);
            && JobsOk(after) && jobs.nextId <= after.nextId
            && (forall p :: HasJob(jobs, p) ==> HasJob(after, p))
            && (forall k :: 0 <= k < |pairs| ==> HasJob(after, PairPayload(pairs[k])))
  {
    if pairs != [] {
      var init := pairs[..|pairs| - 1];
      EnqueuePairsKeepsJobs(jobs, init, now);
      EnqueueKeepsJobs(EnqueuePairs(jobs, init, now), PairPayload(pairs[|pairs| - 1]), now);
      hide JobsOk, HasJob, Enqueue;
      forall k | 0 <= k < |pairs|
        ensures HasJob(EnqueuePairs(jobs, pairs, now), PairPayload(pairs[k]))
      {
        if k < |pairs| - 1 { assert init[k] == pairs[k]; }
      }
    }
  }

  /** Every pair with a Pending or Stale row has its embed job queued. */
  ghost predicate NoLostWork(db: Db) {
    forall id :: id in db.embeddings.rows && IsRecoverable(db.embeddings.rows[id]) ==>
      HasJob(db.jobs, EmbedDocument(db.embeddings.rows[id].documentId, db.embeddings.rows[id].modelId))
  }

  /** Seeding queues a job for every recoverable pair, whatever was queued before. */
  lemma SeedCovers(db: Db, now: int)
    requires JobsOk(db.jobs)
    ensures NoLostWork(Seed(db, now))
    ensures JobsOk(Seed(db, now).jobs)
    ensures db.jobs.nextId <= Seed(db, now).jobs.nextId
    ensures forall p :: HasJob(db.jobs, p) ==> HasJob(Seed(db, now).jobs, p)
  {
    var pairs := Sorted(RecoverablePairs(db.embeddings));
    SortedIsOrdered(RecoverablePairs(db.embeddings));
    EnqueuePairsKeepsJobs(db.jobs, pairs, now);
    hide Sorted, EnqueuePairs, HasJob;
    forall id | id in db.embeddings.rows && IsRecoverable(db.embeddings.rows[id])
      ensures HasJob(Seed(db, now).jobs,
                     EmbedDocument(db.embeddings.rows[id].documentId, db.embeddings.rows[id].modelId))
    {
      var pair := Key(db.embeddings.rows[id].documentId, db.embeddings.rows[id].modelId, 0);
      assert pair in RecoverablePairs(db.embeddings);
      assert pair in pairs;
      var k :| 0 <= k < |pairs| && pairs[k] == pair;
      assert HasJob(EnqueuePairs(db.jobs, pairs, now), PairPayload(pairs[k]));
    }
  }

  lemma SeedKeepsRows(db: Db, now: int)
    ensures var after := Seed(db, now);
            && after.documents == db.documents && after.models == db.models && after.embeddings == db.embeddings
            && after.vec == db.vec && after.search == db.search
  {
  }

  lemma SeedKeeps(db: Db, now: int)
    requires Inv(db)
    ensures Inv(Seed(db, now))
    ensures IndexComplete(db) ==> IndexComplete(Seed(db, now))
  {
    SeedCovers(db, now);
    hide SeedJobs, JobsOk, RowsOk, PathsUnique, ModelsOk;
  }

  // -------------------------------------------------------------------------
  // Transactions
  // -------------------------------------------------------------------------

  lemma StaleStatementsKeep(db: Db, docIds: set<int>)
    requires Inv(db)
    ensures var ids := docIds * db.documents.rows.Keys;
            var rows := MarkStaleRows(db.embeddings, ids);
            var after := db.(embeddings := rows, vec := DeleteVec(db.vec, DocumentRowIds(rows, docIds)));
            Inv(after) && (IndexComplete(db) ==> IndexComplete(after))
  {
    MarkStaleKeepsRows(db.embeddings, docIds * db.documents.rows.Keys);
    hide RowsOk, JobsOk, PathsUnique, ModelsOk;
  }

  lemma MarkStaleInTxKeeps(db: Db, docIds: set<int>, now: int)
    requires Inv(db)
    ensures Inv(MarkStaleInTx(db, docIds, now))
    ensures IndexComplete(db) ==> IndexComplete(MarkStaleInTx(db, docIds, now))
  {
    StaleStatementsKeep(db, docIds);
    var rows := MarkStaleRows(db.embeddings, docIds * db.documents.rows.Keys);
    SeedKeeps(db.(embeddings := rows, vec := DeleteVec(db.vec, DocumentRowIds(rows, docIds))), now);
    hide Inv, IndexComplete, Seed;
  }

  lemma WriteDocumentKeeps(db: Db, id: int, doc: Document)
    requires Inv(db)
    requires (id in db.documents.rows && db.documents.rows[id].filepath == doc.filepath)
             || (id == db.documents.nextId && FindByPath(db.documents, doc.filepath).None?)
    ensures var after := db.(documents := if id in db.documents.rows
                                          then db.documents.(rows := db.documents.rows[id := doc])
                                          else Insert(db.documents, doc));
            Inv(after) && (IndexComplete(db) ==> IndexComplete(after))
  {
    hide RowsOk, JobsOk, ModelsOk, VecSound;
  }

  lemma UpsertDocumentKeeps(db: Db, doc: Document)
    requires Inv(db)
    ensures var up := UpsertDocument(db, doc);
            && Inv(up.db) && (IndexComplete(db) ==> IndexComplete(up.db))
            && up.docId in up.db.documents.rows
            && up.db.models == db.models
            && up.db.search == db.search
  {
    match FindByPath(db.documents, doc.filepath)
    case None => WriteDocumentKeeps(db, db.documents.nextId, doc);
    case Some(id) =>
      WriteDocumentKeeps(db, id, doc);
      var documents := db.documents.(rows := db.documents.rows[id := doc]);
      MarkStaleInTxKeeps(db.(documents := documents), {id}, doc.updatedAt);
      hide Inv, IndexComplete, MarkStaleRows, DeleteVec, SeedJobs;
  }

  lemma ReplacePendingKeeps(db: Db, docId: int, modelId: int, chunks: seq<ChunkRef>, now: int)
    requires Inv(db) && docId in db.documents.rows && (chunks != [] ==> modelId in db.models.rows)
    ensures var after := ReplacePending(db, docId, modelId, chunks, now);
            Inv(after) && (IndexComplete(db) ==> IndexComplete(after))
  {
    var kept := DeletePairRows(db.embeddings, docId, modelId);
    DeletePairRowsEffect(db.embeddings, docId, modelId);
    UpsertPendingRowsEffect(kept, docId, modelId, chunks, now);
    if chunks == [] { assert UpsertPendingRows(kept, docId, modelId, chunks, now) == kept; }
    hide RowsOk, JobsOk, PathsUnique, ModelsOk, UpsertPendingRows, DeletePairRows;
  }

  lemma UpsertTxKeeps(db: Db, doc: Document, modelId: int, chunks: seq<ChunkRef>, now: int)
    requires Inv(db)
    ensures var after := UpsertAndReplacePending(db, doc, modelId, chunks, now);
            Inv(after) && (IndexComplete(db) ==> IndexComplete(after))
  {
    var up := UpsertDocument(db, doc);
    UpsertDocumentKeeps(db, doc);
    if up.changed && !UpsertFails(db, doc, modelId, chunks) {
      ReplacePendingKeeps(up.db, up.docId, modelId, chunks, now);
      SeedKeeps(ReplacePending(up.db, up.docId, modelId, chunks, now), now);
    }
    hide Inv, IndexComplete, UpsertDocument, ReplacePending, Seed;
  }

  lemma DeleteDocumentKeeps(db: Db, docId: int)
    requires Inv(db)
    ensures Inv(DeleteDocument(db, docId))
    ensures IndexComplete(db) ==> IndexComplete(DeleteDocument(db, docId))
  {
    hide JobsOk, ModelsOk;
  }

  lemma ReplaceTxKeeps(db: Db, docId: int, modelId: int, chunks: seq<EmbeddedChunk>, now: int)
    requires Inv(db)
    ensures var after := ReplaceEmbeddings(db, docId, modelId, chunks, now);
            Inv(after) && (IndexComplete(db) ==> IndexComplete(after))
  {
    if ReplaceError(db, docId, modelId, chunks, now).None? {
      ReplacedRowsEffect(db, docId, modelId, chunks, now);
      var rows := ReplacedRows(db, docId, modelId, chunks, now);
      var after := ReplaceEmbeddings(db, docId, modelId, chunks, now);
      hide RowsOk, JobsOk, PathsUnique, ModelsOk, ReplacedRows, DistinctChunks;
      forall id | id in rows.rows
        ensures RowIsSound(after, rows.rows[id])
      {
        if IsPair(rows.rows[id], docId, modelId) {
          assert |chunks[id - db.embeddings.nextId].embedding| == F32_BYTES * db.models.rows[modelId].dimensions;
        } else {
          assert RowIsSound(db, db.embeddings.rows[id]);
        }
      }
    }
  }

  /** Every transaction keeps the invariant; none ever loses a vector that search needs. */
  lemma TxKeepsInv(db: Db, tx: Tx)
    requires Inv(db)
    ensures Inv(ApplyTx(db, tx))
    ensures IndexComplete(db) ==> IndexComplete(ApplyTx(db, tx))
  {
    match tx
    case UpsertTx(doc, modelId, chunks, now) => UpsertTxKeeps(db, doc, modelId, chunks, now);
    case MarkStaleTx(docIds, now) => if docIds != [] { MarkStaleInTxKeeps(db, SetOf(docIds), now); }
    case DeleteTx(docId) => DeleteDocumentKeeps(db, docId);
    case ReplaceTx(docId, modelId, embedded, now) => ReplaceTxKeeps(db, docId, modelId, embedded, now);
    case QueueTx(op) =>
      QueueOpKeepsJobs(db.jobs, op);
      hide JobsOk, RowsOk, PathsUnique, ModelsOk, ApplyOp;
  }

  lemma {:induction false} TxsKeepInv(db: Db, txs: seq<Tx>)
    requires Inv(db)
    ensures Inv(ApplyTxs(db, txs))
    ensures IndexComplete(db) ==> IndexComplete(ApplyTxs(db, txs))
    decreases |txs|
  {
    hide Inv, IndexComplete;
    if txs != [] {
      TxKeepsInv(db, txs[0]);
      TxsKeepInv(ApplyTx(db, txs[0]), txs[1..]);
    }
  }

  // -------------------------------------------------------------------------
  // What marking and deleting leave
  // -------------------------------------------------------------------------

  /** Marking documents stale leaves no Embedded row and no vector of theirs, queues all their pairs,
      and touches neither another document nor any chunk, id or stored vector bytes. */
  lemma MarkStaleEffect(db: Db, docIds: seq<int>, now: int)
    requires Inv(db) && docIds != []
    ensures var after := MarkStale(db, docIds, now);
            && after.documents == db.documents && after.models == db.models && after.search == db.search
            && after.embeddings.rows.Keys == db.embeddings.rows.Keys
            && forall id :: id in db.embeddings.rows ==>
                 IsMarked(db.embeddings.rows[id], after.embeddings.rows[id], docIds)
    ensures var after := MarkStale(db, docIds, now);
            after.vec.Some? ==> forall id :: id in after.vec.value.entries <==>
              id in db.vec.value.entries && db.embeddings.rows[id].documentId !in docIds
    ensures var after := MarkStale(db, docIds, now);
            forall id :: id in db.embeddings.rows && db.embeddings.rows[id].documentId in docIds ==>
              HasJob(after.jobs, EmbedDocument(db.embeddings.rows[id].documentId, db.embeddings.rows[id].modelId))
  {
    var marked := SetOf(docIds);
    var rows := MarkStaleRows(db.embeddings, marked * db.documents.rows.Keys);
    var unseeded := db.(embeddings := rows, vec := DeleteVec(db.vec, DocumentRowIds(rows, marked)));
    SeedCovers(unseeded, now);
    hide RowsOk, JobsOk, PathsUnique, ModelsOk, SeedJobs, HasJob;
    assert MarkStale(db, docIds, now) == Seed(unseeded, now);
    forall id | id in db.embeddings.rows
      ensures IsMarked(db.embeddings.rows[id], rows.rows[id], docIds)
    {
      assert RowIsSound(db, db.embeddings.rows[id]);
    }
  }

  predicate IsMarked(before: EmbeddingRow, after: EmbeddingRow, docIds: seq<int>) {
    if before.documentId in docIds
    then IsRecoverable(after) && after == before.(state := after.state)
         && (after.state == before.state || (before.state == Embedded && after.state == Stale))
    else after == before
  }

  /** Deleting a document leaves nothing of it in any table or in the index, and nothing else changes. */
  lemma DeleteEffect(db: Db, docId: int)
    requires Inv(db)
    ensures var after := DeleteDocument(db, docId);
            && after.documents.rows == db.documents.rows - {docId}
            && (forall id :: id in after.embeddings.rows <==>
                  id in db.embeddings.rows && db.embeddings.rows[id].documentId != docId)
            && (forall id :: id in after.embeddings.rows ==> after.embeddings.rows[id] == db.embeddings.rows[id])
            && (after.vec.Some? ==> forall id :: id in after.vec.value.entries <==>
                  id in db.vec.value.entries && id in after.embeddings.rows)
            && after.jobs == db.jobs && after.models == db.models && after.search == db.search
  {
    hide RowsOk, JobsOk, PathsUnique, ModelsOk, RowsSound;
  }

  // -------------------------------------------------------------------------
  // Leases across transactions
  // -------------------------------------------------------------------------

  /** Every clock the transaction uses is at most `latest`, and it does not end the lease. */
  predicate TxRespectsLease(tx: Tx, jobId: int, latest: int) {
    match tx
    case UpsertTx(doc, _, _, now) => now <= latest && doc.updatedAt <= latest
    case MarkStaleTx(_, now) => now <= latest
    case DeleteTx(_) => true
    case ReplaceTx(_, _, _, _) => true
    case QueueTx(op) => RespectsLease(op, jobId, latest)
  }

  predicate IsLeased(jobs: Jobs, jobId: int, job: JobRow, t: int) {
    jobId in jobs.rows && jobs.rows[jobId] == job && job.claimedAt == Some(t) && jobId < jobs.nextId
  }

  lemma {:induction false} SeedKeepsLease(jobs: Jobs, pairs: seq<Key>, now: int, jobId: int, job: JobRow, t: int)
    requires IsLeased(jobs, jobId, job, t) && now <= t + STALE_JOB_AGE_SECS
    ensures IsLeased(EnqueuePairs(jobs, pairs, now), jobId, job, t)
  {
    if pairs != [] { SeedKeepsLease(jobs, pairs[..|pairs| - 1], now, jobId, job, t); }
  }

  lemma TxKeepsLease(db: Db, tx: Tx, jobId: int, job: JobRow, t: int)
    requires IsLeased(db.jobs, jobId, job, t) && TxRespectsLease(tx, jobId, t + STALE_JOB_AGE_SECS)
    ensures IsLeased(ApplyTx(db, tx).jobs, jobId, job, t)
  {
    match tx
    case UpsertTx(doc, modelId, chunks, now) =>
      forall jobs, pairs, clock | IsLeased(jobs, jobId, job, t) && clock <= t + STALE_JOB_AGE_SECS
        ensures IsLeased(EnqueuePairs(jobs, pairs, clock), jobId, job, t)
      {
        SeedKeepsLease(jobs, pairs, clock, jobId, job, t);
      }
      hide EnqueuePairs, Sorted, UpsertPendingRows, IsLeased;
    case MarkStaleTx(docIds, now) =>
      forall pairs ensures IsLeased(EnqueuePairs(db.jobs, pairs, now), jobId, job, t) {
        SeedKeepsLease(db.jobs, pairs, now, jobId, job, t);
      }
      hide EnqueuePairs, Sorted, IsLeased;
    case DeleteTx(_) =>
    case ReplaceTx(_, _, _, _) =>
    case QueueTx(op) =>
  }

  /** Lease safety over whole runs of transactions: the claimed row stays as it is, and can be claimed
      again at exactly the clocks after `t + 86400`. */
  lemma {:induction false} TxsKeepLease(db: Db, txs: seq<Tx>, jobId: int, job: JobRow, t: int)
    requires IsLeased(db.jobs, jobId, job, t)
    requires forall k :: 0 <= k < |txs| ==> TxRespectsLease(txs[k], jobId, t + STALE_JOB_AGE_SECS)
    ensures IsLeased(ApplyTxs(db, txs).jobs, jobId, job, t)
    ensures forall clock :: IsClaimable(ApplyTxs(db, txs).jobs.rows[jobId], clock) <==> clock > t + STALE_JOB_AGE_SECS
    decreases |txs|
  {
    if txs != [] {
      TxKeepsLease(db, txs[0], jobId, job, t);
      forall k | 0 <= k < |txs[1..]|
        ensures TxRespectsLease(txs[1..][k], jobId, t + STALE_JOB_AGE_SECS)
      {
        assert txs[1..][k] == txs[k + 1];
      }
      hide ApplyTx, TxRespectsLease;
      TxsKeepLease(ApplyTx(db, txs[0]), txs[1..], jobId, job, t);
    }
  }
}
