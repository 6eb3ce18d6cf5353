/** What a dispatched embed job achieves, and that no work is lost. */
module EmbedResults {
  import opened Prelude
  import opened Utf8
  import opened Types
  import opened Tables
  import opened Ordering
  import opened JobQueue
  import opened StoreSpec
  import opened StoreInvariant
  import opened StoreSteps
  import opened ContentRead
  import opened ChunkPlanning
  import opened EmbedJob

  // -------------------------------------------------------------------------
  // Completing a job
  // -------------------------------------------------------------------------

  ghost predicate PairIsRecoverable(rows: Rows, docId: int, modelId: int) {
    exists id :: id in rows.rows && IsPair(rows.rows[id], docId, modelId) && IsRecoverable(rows.rows[id])
  }

  /** Every row of the pair was created at `now`. */
  ghost predicate PairIsDated(rows: Rows, docId: int, modelId: int, now: int) {
    forall id :: id in rows.rows && IsPair(rows.rows[id], docId, modelId) ==> rows.rows[id].createdAt == now
  }

  /** Deleting a queue row is safe exactly when its pair, if it has one, needs no more embedding. */
  lemma CompleteIsSafeIff(db: Db, jobId: int)
    requires JobsOk(db.jobs) && NoLostWork(db) && jobId in db.jobs.rows
    ensures NoLostWork(ApplyTx(db, CompleteTx(jobId))) <==>
            match db.jobs.rows[jobId].payload
            case EmbedDocument(docId, modelId) => !PairIsRecoverable(db.embeddings, docId, modelId)
            case _ => true
  {
    var after := ApplyTx(db, CompleteTx(jobId));
    var payload := db.jobs.rows[jobId].payload;
    assert !HasJob(after.jobs, payload);
    forall p | p != payload && HasJob(db.jobs, p)
      ensures HasJob(after.jobs, p)
    {
      var id :| id in db.jobs.rows && db.jobs.rows[id].payload == p;
      assert id in after.jobs.rows && after.jobs.rows[id].payload == p;
    }
    match payload
    case EmbedDocument(docId, modelId) =>
      if PairIsRecoverable(db.embeddings, docId, modelId) {
        var id :| id in db.embeddings.rows && IsPair(db.embeddings.rows[id], docId, modelId)
                  && IsRecoverable(db.embeddings.rows[id]);
        assert !HasJob(after.jobs, EmbedDocument(db.embeddings.rows[id].documentId, db.embeddings.rows[id].modelId));
      }
    case _ =>
  }

  /** The claimed entry: either still queued, or removed earlier; its id is never given out again. */
  ghost predicate IsEntry(jobs: Jobs, jobId: int, docId: int, modelId: int) {
    && jobId < jobs.nextId
    && (jobId in jobs.rows ==> jobs.rows[jobId].payload == EmbedDocument(docId, modelId))
  }

  lemma CompleteIdlePair(db: Db, jobId: int, docId: int, modelId: int)
    requires JobsOk(db.jobs) && NoLostWork(db) && IsEntry(db.jobs, jobId, docId, modelId)
    requires !PairIsRecoverable(db.embeddings, docId, modelId)
    ensures NoLostWork(ApplyTx(db, CompleteTx(jobId)))
  {
    if jobId in db.jobs.rows {
      CompleteIsSafeIff(db, jobId);
    } else {
      assert ApplyTx(db, CompleteTx(jobId)) == db;
    }
  }

  // -------------------------------------------------------------------------
  // Replanning
  // -------------------------------------------------------------------------

  lemma {:induction false} EnqueuedIdsAreFresh(jobs: Jobs, pairs: seq<Key>, now: int)
    ensures var after := EnqueuePairs(jobs, pairs, now);
            && jobs.nextId <= after.nextId
            && forall id :: id in after.rows ==> id in jobs.rows || jobs.nextId <= id
  {
    if pairs != [] { EnqueuedIdsAreFresh(jobs, pairs[..|pairs| - 1], now); }
  }

  lemma SeededIdsAreFresh(db: Db, now: int)
    ensures var after := Seed(db, now).jobs;
            && db.jobs.nextId <= after.nextId
            && forall id :: id in after.rows ==> id in db.jobs.rows || db.jobs.nextId <= id
  {
    EnqueuedIdsAreFresh(db.jobs, Sorted(RecoverablePairs(db.embeddings)), now);
  }

  /** An upsert that changes the document leaves every recoverable pair queued, whatever was queued
      before, and gives out only new job ids. */
  lemma UpsertQueuesEverything(db: Db, doc: Document, modelId: int, chunks: seq<ChunkRef>, now: int)
    requires Inv(db) && UpsertDocument(db, doc).changed && !UpsertFails(db, doc, modelId, chunks)
    ensures var after := UpsertAndReplacePending(db, doc, modelId, chunks, now);
            && NoLostWork(after)
            && db.jobs.nextId <= after.jobs.nextId
            && forall id :: id in after.jobs.rows ==> id in db.jobs.rows || db.jobs.nextId <= id
  {
    var up := UpsertDocument(db, doc);
    UpsertDocumentKeeps(db, doc);
    ReplacePendingKeeps(up.db, up.docId, modelId, chunks, now);
    var mid := ReplacePending(up.db, up.docId, modelId, chunks, now);
    SeedCovers(mid, now);
    SeededIdsAreFresh(mid, now);
    UpsertDocumentIds(db, doc);
    hide Inv, UpsertDocument, Seed, NoLostWork;
  }

  lemma UpsertDocumentIds(db: Db, doc: Document)
    ensures var after := UpsertDocument(db, doc).db.jobs;
            && db.jobs.nextId <= after.nextId
            && forall id :: id in after.rows ==> id in db.jobs.rows || db.jobs.nextId <= id
  {
    match FindByPath(db.documents, doc.filepath)
    case None =>
    case Some(id) =>
      var documents := db.documents.(rows := db.documents.rows[id := doc]);
      var rows := MarkStaleRows(db.embeddings, {id} * documents.rows.Keys);
      SeededIdsAreFresh(
        db.(documents := documents, embeddings := rows, vec := DeleteVec(db.vec, DocumentRowIds(rows, {id}))),
        doc.updatedAt);
      hide SeedJobs;
  }

  lemma FindsOwnPath(db: Db, docId: int)
    requires Inv(db) && docId in db.documents.rows
    ensures FindByPath(db.documents, db.documents.rows[docId].filepath) == Some(docId)
  {
    assert PathsUnique(db.documents);
    var found := FindByPath(db.documents, db.documents.rows[docId].filepath).value;
    assert SamePath(db.documents, found, docId);
  }

  lemma ReplanKeepsWork(db: Db, jobId: int, docId: int, modelId: int, file: FileBytes, details: DocumentDetails,
                        now: int)
    requires Inv(db) && NoLostWork(db) && IsEntry(db.jobs, jobId, docId, modelId)
    requires docId in db.documents.rows && modelId in db.models.rows
    requires FileHash(file) != db.documents.rows[docId].fileHash
    ensures var txs := ReplanTxs(db.documents.rows[docId], db.models.rows[modelId], modelId, jobId, file, true,
                                 details, now);
            NoLostWork(ApplyTxs(db, txs))
  {
    hide PlannedChunks, Inv, NoLostWork, MarkStaleInTx, UpsertAndReplacePending;
    var doc := ReplannedDocument(db.documents.rows[docId], file, details, now);
    var chunks := PlannedChunks(file, db.models.rows[modelId]);
    var freed := ApplyTx(db, CompleteTx(jobId));
    TxKeepsInv(db, CompleteTx(jobId));
    FindsOwnPath(freed, docId);
    assert UpsertDocument(freed, doc).changed;
    UpsertQueuesEverything(freed, doc, modelId, chunks, now);
    var planned := ApplyTx(freed, UpsertTx(doc, modelId, chunks, now));
    assert jobId !in planned.jobs.rows;
    assert ApplyTx(planned, CompleteTx(jobId)) == planned;
    ThreeTxs(db, CompleteTx(jobId), UpsertTx(doc, modelId, chunks, now), CompleteTx(jobId));
  }

  lemma OneTx(db: Db, x: Tx)
    ensures ApplyTxs(db, [x]) == ApplyTx(db, x)
  {
    assert [x][1..] == [];
  }

  lemma TwoTxs(db: Db, x: Tx, y: Tx)
    ensures ApplyTxs(db, [x, y]) == ApplyTx(ApplyTx(db, x), y)
  {
    assert [x, y][1..] == [y];
    OneTx(ApplyTx(db, x), y);
  }

  lemma ThreeTxs(db: Db, x: Tx, y: Tx, z: Tx)
    ensures ApplyTxs(db, [x, y, z]) == ApplyTx(ApplyTx(ApplyTx(db, x), y), z)
  {
    assert [x, y, z][1..] == [y, z];
    TwoTxs(ApplyTx(db, x), y, z);
  }

  // -------------------------------------------------------------------------
  // Embedding
  // -------------------------------------------------------------------------

  ghost predicate HasChunk(rows: Rows, docId: int, modelId: int, chunk: ChunkRef) {
    exists id :: id in rows.rows && IsPair(rows.rows[id], docId, modelId) && rows.rows[id].chunk == chunk
  }

  /** The same (type, start, end) triples before and after. */
  ghost predicate SameChunks(before: Rows, after: Rows, docId: int, modelId: int) {
    forall chunk :: HasChunk(before, docId, modelId, chunk) <==> HasChunk(after, docId, modelId, chunk)
  }

  /** Only the recoverable rows are rewritten, yet by homogeneity they are all rows of the pair. */
  lemma ListedIsWholePair(rows: Rows, docId: int, modelId: int, id: int)
    requires Homogeneous(rows) && ListRecoverable(rows, docId, modelId) != []
    requires id in rows.rows && IsPair(rows.rows[id], docId, modelId)
    ensures id in ListRecoverable(rows, docId, modelId)
  {
    hide ListRecoverable;
    ListIsComplete(rows, docId, modelId);
    var first := ListRecoverable(rows, docId, modelId)[0];
    assert rows.rows[id].state == rows.rows[first].state;
  }

  lemma ListedChunksAreDistinct(rows: Rows, docId: int, modelId: int, embedded: seq<EmbeddedChunk>)
    requires KeysUnique(rows) && IsListed(rows, docId, modelId, embedded)
    ensures DistinctChunks(embedded)
  {
    hide ListRecoverable;
    ListIsComplete(rows, docId, modelId);
    var ids := ListRecoverable(rows, docId, modelId);
    forall j, k | 0 <= j < k < |embedded|
      ensures !(embedded[j].chunk.chunkType == embedded[k].chunk.chunkType
                && embedded[j].chunk.start == embedded[k].chunk.start)
    {
      assert !SameKey(rows.rows[ids[j]], rows.rows[ids[k]]);
    }
  }

  ghost predicate IsListed(rows: Rows, docId: int, modelId: int, embedded: seq<EmbeddedChunk>) {
    var ids := ListRecoverable(rows, docId, modelId);
    && ids != [] && |embedded| == |ids|
    && forall k :: 0 <= k < |ids| ==> embedded[k].chunk == rows.rows[ids[k]].chunk
  }

  lemma ListedChunksAreThePairs(before: Rows, after: Rows, docId: int, modelId: int, embedded: seq<EmbeddedChunk>,
                                now: int)
    requires Homogeneous(before) && IsListed(before, docId, modelId, embedded)
    requires PairHoldsChunks(before, after, docId, modelId, embedded, now)
    ensures SameChunks(before, after, docId, modelId)
  {
    var ids := ListRecoverable(before, docId, modelId);
    hide ListRecoverable, Homogeneous;
    forall chunk | HasChunk(before, docId, modelId, chunk)
      ensures HasChunk(after, docId, modelId, chunk)
    {
      var i :| i in before.rows && IsPair(before.rows[i], docId, modelId) && before.rows[i].chunk == chunk;
      ListedIsWholePair(before, docId, modelId, i);
      var k :| 0 <= k < |ids| && ids[k] == i;
      var j := before.nextId + k;
      assert j in after.rows && after.rows[j] == EmbeddedRow(docId, modelId, embedded[k], now);
    }
    forall chunk | HasChunk(after, docId, modelId, chunk)
      ensures HasChunk(before, docId, modelId, chunk)
    {
      var j :| j in after.rows && IsPair(after.rows[j], docId, modelId) && after.rows[j].chunk == chunk;
      var i := ids[j - before.nextId];
      assert IsPair(before.rows[i], docId, modelId) && before.rows[i].chunk == chunk;
    }
  }

  lemma EmbeddedPairIsIdle(before: Rows, after: Rows, docId: int, modelId: int, embedded: seq<EmbeddedChunk>, now: int)
    requires PairHoldsChunks(before, after, docId, modelId, embedded, now)
    ensures !PairIsRecoverable(after, docId, modelId)
    ensures PairIsDated(after, docId, modelId, now)
  {
  }

  lemma ReplaceSucceeds(db: Db, docId: int, modelId: int, embedded: seq<EmbeddedChunk>, now: int)
    requires ReplaceError(db, docId, modelId, embedded, now).None?
    ensures DistinctChunks(embedded)
    ensures var after := ReplaceEmbeddings(db, docId, modelId, embedded, now);
            && after.embeddings == ReplacedRows(db, docId, modelId, embedded, now)
            && after.jobs == db.jobs && after.documents == db.documents && after.models == db.models
  {
    hide DistinctChunks, ReplacedRows, PairVectors, VectorsFit, DeleteVec, PairRowIds;
  }

  /** Replacing the listed rows by their embeddings embeds the whole pair: no chunk is lost, added or
      moved, and each row holds the vector computed for its chunk. */
  lemma ReplaceEmbedsPair(db: Db, docId: int, modelId: int, embedded: seq<EmbeddedChunk>, now: int)
    requires Inv(db) && ReplaceError(db, docId, modelId, embedded, now).None?
    requires IsListed(db.embeddings, docId, modelId, embedded)
    ensures var after := ReplaceEmbeddings(db, docId, modelId, embedded, now);
            && !PairIsRecoverable(after.embeddings, docId, modelId)
            && PairIsDated(after.embeddings, docId, modelId, now)
            && SameChunks(db.embeddings, after.embeddings, docId, modelId)
            && OthersKept(db.embeddings, after.embeddings, docId, modelId)
            && PairHoldsChunks(db.embeddings, after.embeddings, docId, modelId, embedded, now)
            && after.jobs == db.jobs && after.documents == db.documents
  {
    hide *;
    ReplaceSucceeds(db, docId, modelId, embedded, now);
    InvParts(db);
    RowsOkParts(db.embeddings);
    var after := ReplacedRows(db, docId, modelId, embedded, now);
    ReplacedRowsEffect(db, docId, modelId, embedded, now);
    ListedChunksAreThePairs(db.embeddings, after, docId, modelId, embedded, now);
    EmbeddedPairIsIdle(db.embeddings, after, docId, modelId, embedded, now);
  }

  lemma EmptyListIsIdle(rows: Rows, docId: int, modelId: int)
    requires ListRecoverable(rows, docId, modelId) == []
    ensures !PairIsRecoverable(rows, docId, modelId)
  {
    ListIsComplete(rows, docId, modelId);
    hide ListRecoverable;
  }

  lemma PreparedInOrder(filepath: seq<byte>, file: FileBytes, chunks: seq<ChunkRef>, vectors: seq<Vector>)
    requires PreparedChunks(filepath, file, chunks).Success?
    requires |vectors| == |PreparedChunks(filepath, file, chunks).value|
    ensures var embedded := Embedding(PreparedChunks(filepath, file, chunks).value, vectors);
            && |embedded| == |chunks|
            && forall k :: 0 <= k < |chunks| ==> embedded[k].chunk == chunks[k]
  {
    hide ReadPlan;
    var prepared := PreparedChunks(filepath, file, chunks).value;
    forall k | 0 <= k < |chunks|
      ensures prepared[k].chunk == chunks[k]
    {
    }
  }

  lemma EmbedKeepsWork(db: Db, jobId: int, docId: int, modelId: int, file: FileBytes, contentReads: bool,
                       provider: ProviderResult, now: int)
    requires Inv(db) && NoLostWork(db) && IsEntry(db.jobs, jobId, docId, modelId) && docId in db.documents.rows
    ensures NoLostWork(ApplyTxs(db, EmbedTxs(db, jobId, docId, modelId, file, contentReads, provider, now)))
  {
    hide ListRecoverable, PreparedChunks;
    var ids := ListRecoverable(db.embeddings, docId, modelId);
    var chunks := ChunksAt(db.embeddings, ids);
    var txs := EmbedTxs(db, jobId, docId, modelId, file, contentReads, provider, now);
    if chunks == [] {
      EmptyListIsIdle(db.embeddings, docId, modelId);
      CompleteIdlePair(db, jobId, docId, modelId);
      OneTx(db, CompleteTx(jobId));
    } else if |txs| == 1 {
      DeferKeepsWork(db, jobId, now, provider.retryAfterSecs);
      OneTx(db, txs[0]);
    } else if |txs| == 2 {
      var prepared := PreparedChunks(db.documents.rows[docId].filepath, file, chunks).value;
      var embedded := Embedding(prepared, provider.vectors);
      PreparedInOrder(db.documents.rows[docId].filepath, file, chunks, provider.vectors);
      ReplaceEmbedsPair(db, docId, modelId, embedded, now);
      var mid := ApplyTx(db, txs[0]);
      ReplacedPairKeepsWork(db, mid, docId, modelId);
      CompleteIdlePair(mid, jobId, docId, modelId);
      TwoTxs(db, txs[0], txs[1]);
    }
  }

  lemma DeferKeepsWork(db: Db, jobId: int, now: int, retryAfterSecs: nat)
    requires NoLostWork(db)
    ensures NoLostWork(ApplyTx(db, QueueTx(DeferOp(jobId, now, retryAfterSecs))))
  {
    var after := ApplyTx(db, QueueTx(DeferOp(jobId, now, retryAfterSecs)));
    forall p | HasJob(db.jobs, p)
      ensures HasJob(after.jobs, p)
    {
      var id :| id in db.jobs.rows && db.jobs.rows[id].payload == p;
      assert after.jobs.rows[id].payload == p;
    }
  }

  lemma ReplacedPairKeepsWork(db: Db, after: Db, docId: int, modelId: int)
    requires NoLostWork(db) && after.jobs == db.jobs
    requires OthersKept(db.embeddings, after.embeddings, docId, modelId)
    requires !PairIsRecoverable(after.embeddings, docId, modelId)
    ensures NoLostWork(after)
  {
    hide HasJob;
  }

  // -------------------------------------------------------------------------
  // No lost work
  // -------------------------------------------------------------------------

  /** Reads after the hash succeed. */
  predicate FileReads(view: FileView) { view.Present? ==> view.contentReads }

  lemma JobKeepsWork(db: Db, jobId: int, docId: int, modelId: int, view: FileView, provider: ProviderResult, now: int)
    requires Inv(db) && NoLostWork(db) && IsEntry(db.jobs, jobId, docId, modelId) && FileReads(view)
    ensures NoLostWork(ApplyTxs(db, JobTxs(db, jobId, docId, modelId, view, provider, now)))
  {
    hide EmbedTxs, ReplanTxs;
    if docId !in db.documents.rows {
      MissingDocumentIsIdle(db, docId, modelId);
      CompleteIdlePair(db, jobId, docId, modelId);
      assert ApplyTx(ApplyTx(db, CompleteTx(jobId)), CompleteTx(jobId)) == ApplyTx(db, CompleteTx(jobId));
      TwoTxs(db, CompleteTx(jobId), CompleteTx(jobId));
    } else if modelId in db.models.rows {
      match view
      case NotFound =>
        var mid := ApplyTx(db, DeleteTx(docId));
        DeleteLeavesIdle(db, docId, modelId);
        CompleteIdlePair(mid, jobId, docId, modelId);
        TwoTxs(db, DeleteTx(docId), CompleteTx(jobId));
      case MetadataFails =>
      case HashFails =>
      case Present(file, contentReads, details) =>
        if FileHash(file) != db.documents.rows[docId].fileHash {
          ReplanKeepsWork(db, jobId, docId, modelId, file, details, now);
        } else {
          EmbedKeepsWork(db, jobId, docId, modelId, file, contentReads, provider, now);
        }
    }
  }

  lemma MissingDocumentIsIdle(db: Db, docId: int, modelId: int)
    requires Inv(db) && docId !in db.documents.rows
    ensures !PairIsRecoverable(db.embeddings, docId, modelId)
  {
    hide RowsOk, JobsOk, PathsUnique, VecSound;
    if id :| id in db.embeddings.rows && IsPair(db.embeddings.rows[id], docId, modelId)
             && IsRecoverable(db.embeddings.rows[id]) {
      assert false;
    }
  }

  lemma DeleteLeavesIdle(db: Db, docId: int, modelId: int)
    requires Inv(db) && NoLostWork(db)
    ensures var after := ApplyTx(db, DeleteTx(docId));
            && NoLostWork(after) && after.jobs == db.jobs
            && !PairIsRecoverable(after.embeddings, docId, modelId)
  {
    hide HasJob;
  }

  /** When the reads after a hash mismatch fail, the job row is already gone: the work of its pair is
      lost exactly when the row was still queued and the pair still needs embedding. */
  lemma FailedReplanLosesWorkIff(db: Db, jobId: int, docId: int, modelId: int, file: FileBytes,
                                 details: DocumentDetails, provider: ProviderResult, now: int)
    requires Inv(db) && NoLostWork(db) && IsEntry(db.jobs, jobId, docId, modelId)
    requires docId in db.documents.rows && modelId in db.models.rows
    requires FileHash(file) != db.documents.rows[docId].fileHash
    ensures NoLostWork(ApplyTxs(db, JobTxs(db, jobId, docId, modelId, Present(file, false, details), provider, now)))
            <==> !(jobId in db.jobs.rows && PairIsRecoverable(db.embeddings, docId, modelId))
  {
    OneTx(db, CompleteTx(jobId));
    if jobId in db.jobs.rows {
      CompleteIsSafeIff(db, jobId);
    } else {
      assert ApplyTx(db, CompleteTx(jobId)) == db;
    }
  }

  /** What the server does between jobs: everything but replacing rows and completing embed jobs. */
  ghost predicate IsBackground(db: Db, tx: Tx) {
    match tx
    case ReplaceTx(_, _, _, _) => false
    case QueueTx(CompleteOp(jobId)) => jobId in db.jobs.rows ==> !db.jobs.rows[jobId].payload.EmbedDocument?
    case _ => true
  }

  lemma BackgroundKeepsWork(db: Db, tx: Tx)
    requires Inv(db) && NoLostWork(db) && IsBackground(db, tx)
    ensures NoLostWork(ApplyTx(db, tx))
  {
    match tx
    case UpsertTx(doc, modelId, chunks, now) =>
      if UpsertDocument(db, doc).changed && !UpsertFails(db, doc, modelId, chunks) {
        UpsertQueuesEverything(db, doc, modelId, chunks, now);
      }
    case MarkStaleTx(docIds, now) =>
      if docIds != [] {
        var rows := MarkStaleRows(db.embeddings, SetOf(docIds) * db.documents.rows.Keys);
        SeedCovers(db.(embeddings := rows, vec := DeleteVec(db.vec, DocumentRowIds(rows, SetOf(docIds)))), now);
      }
    case DeleteTx(docId) => DeleteLeavesIdle(db, docId, 0);
    case ReplaceTx(_, _, _, _) =>
    case QueueTx(op) =>
      match op
      case EnqueueOp(payload, now) => EnqueueKeepsJobs(db.jobs, payload, now);
      case ClaimOp(now) => ClaimKeepsWork(db, now);
      case DeferOp(jobId, now, retryAfterSecs) => DeferKeepsWork(db, jobId, now, retryAfterSecs);
      case CompleteOp(jobId) =>
        if jobId in db.jobs.rows {
          CompleteIsSafeIff(db, jobId);
        } else {
          assert ApplyTx(db, tx) == db;
        }
  }

  lemma ClaimKeepsWork(db: Db, now: int)
    requires NoLostWork(db)
    ensures NoLostWork(ApplyTx(db, QueueTx(ClaimOp(now))))
  {
    var after := ApplyTx(db, QueueTx(ClaimOp(now)));
    forall p | HasJob(db.jobs, p)
      ensures HasJob(after.jobs, p)
    {
      var id :| id in db.jobs.rows && db.jobs.rows[id].payload == p;
      assert after.jobs.rows[id].payload == p;
    }
  }

  datatype Event =
    | Background(tx: Tx)
    | Dispatch(jobId: int, docId: int, modelId: int, view: FileView, provider: ProviderResult, now: int)

  /** The event can happen in this database: a dispatched entry is one that the queue handed out. */
  ghost predicate CanHappen(db: Db, event: Event) {
    match event
    case Background(tx) => IsBackground(db, tx)
    case Dispatch(jobId, docId, modelId, view, _, _) => IsEntry(db.jobs, jobId, docId, modelId) && FileReads(view)
  }

  function Happen(db: Db, event: Event): Db {
    match event
    case Background(tx) => ApplyTx(db, tx)
    case Dispatch(jobId, docId, modelId, view, provider, now) =>
      ApplyTxs(db, JobTxs(db, jobId, docId, modelId, view, provider, now))
  }

  ghost predicate IsHistory(db: Db, events: seq<Event>)
    decreases |events|
  {
    events == [] || (CanHappen(db, events[0]) && IsHistory(Happen(db, events[0]), events[1..]))
  }

  function After(db: Db, events: seq<Event>): Db
    decreases |events|
  {
    if events == [] then db else After(Happen(db, events[0]), events[1..])
  }

  /** With each dispatched job one atomic step and its file reads succeeding, no history loses work. */
  lemma {:induction false} NoWorkIsLost(db: Db, events: seq<Event>)
    requires Inv(db) && NoLostWork(db) && IsHistory(db, events)
    ensures Inv(After(db, events)) && NoLostWork(After(db, events))
    decreases |events|
  {
    if events != [] {
      match events[0] {
        case Background(tx) =>
          TxKeepsInv(db, tx);
          BackgroundKeepsWork(db, tx);
        case Dispatch(jobId, docId, modelId, view, provider, now) =>
          TxsKeepInv(db, JobTxs(db, jobId, docId, modelId, view, provider, now));
          JobKeepsWork(db, jobId, docId, modelId, view, provider, now);
      }
      hide Inv, NoLostWork, ApplyTx, JobTxs, CanHappen;
      NoWorkIsLost(Happen(db, events[0]), events[1..]);
    }
  }

  /** Startup establishes it from any stored database: seeding alone is enough. */
  lemma StartupRecoversWork(db: Db, now: int, events: seq<Event>)
    requires Inv(db) && IsHistory(Seed(db, now), events)
    ensures NoLostWork(After(Seed(db, now), events))
  {
    SeedKeeps(db, now);
    SeedCovers(db, now);
    hide Inv, NoLostWork, Seed, IsHistory;
    NoWorkIsLost(Seed(db, now), events);
  }

  /** Without atomic dispatch work can be lost: a document marked stale after the rows were replaced
      and before the job is completed is deduplicated against the claimed job, which then goes. */
  lemma StaleMarkBeforeCompleteLosesWork(db: Db, jobId: int, docId: int, modelId: int, rowId: int, t: int, now: int)
    requires Inv(db)
    requires jobId in db.jobs.rows && db.jobs.rows[jobId].payload == EmbedDocument(docId, modelId)
    requires db.jobs.rows[jobId].claimedAt == Some(t) && now <= t + STALE_JOB_AGE_SECS
    requires rowId in db.embeddings.rows && IsPair(db.embeddings.rows[rowId], docId, modelId)
    requires db.embeddings.rows[rowId].state == Embedded
    ensures !NoLostWork(ApplyTxs(db, [MarkStaleTx([docId], now), CompleteTx(jobId)]))
  {
    hide EnqueuePairs, Sorted;
    var mid := ApplyTx(db, MarkStaleTx([docId], now));
    TxKeepsInv(db, MarkStaleTx([docId], now));
    assert IsLeased(db.jobs, jobId, db.jobs.rows[jobId], t);
    TxKeepsLease(db, MarkStaleTx([docId], now), jobId, db.jobs.rows[jobId], t);
    assert RowIsSound(db, db.embeddings.rows[rowId]);
    assert docId in SetOf([docId]) by { assert docId in [docId]; }
    assert mid.embeddings.rows[rowId] == db.embeddings.rows[rowId].(state := Stale);
    TwoTxs(db, MarkStaleTx([docId], now), CompleteTx(jobId));
    var after := ApplyTx(mid, CompleteTx(jobId));
    assert !HasJob(after.jobs, EmbedDocument(docId, modelId));
  }
}
