/** What a dispatched job does when the file has changed: it plans the new text, and the next dispatch
    embeds exactly that. */
module Replan {
  import opened Prelude
  import opened Types
  import opened Tables
  import opened Ordering
  import opened JobQueue
  import opened StoreSpec
  import opened StoreInvariant
  import opened StoreSteps
  import opened ContentRead
  import opened ChunkPlanning
  import opened EmbedJob
  import opened EmbedResults
  import opened PlanThenEmbed
  import opened Startup
  import opened DocumentWrites

  /** The store after the job of the pair was dispatched on a readable file. */
  function AfterJob(db: Db, jobId: int, docId: int, modelId: int, file: FileBytes, details: DocumentDetails,
                      provider: ProviderResult, now: int): Db
  {
    ApplyTxs(db, JobTxs(db, jobId, docId, modelId, Present(file, true, details), provider, now))
  }

  ghost predicate HasChanged(db: Db, jobId: int, docId: int, modelId: int, file: FileBytes) {
    && IsEntry(db.jobs, jobId, docId, modelId)
    && docId in db.documents.rows && modelId in db.models.rows
    && db.documents.rows[docId].fileHash != FileHash(file)
  }

  lemma Freed(db: Db, jobId: int, docId: int, modelId: int, file: FileBytes)
    requires Inv(db) && HasChanged(db, jobId, docId, modelId, file)
    ensures var freed := ApplyTx(db, CompleteTx(jobId));
            && Inv(freed) && freed.documents == db.documents && freed.models == db.models
            && freed.embeddings == db.embeddings && freed.vec == db.vec && freed.search == db.search
            && jobId !in freed.jobs.rows && jobId < freed.jobs.nextId
  {
    TxKeepsInv(db, CompleteTx(jobId));
    hide Inv;
  }

  lemma WritesOwnPath(db: Db, docId: int, doc: Document)
    requires Inv(db) && docId in db.documents.rows && doc.filepath == db.documents.rows[docId].filepath
    requires doc.fileHash != db.documents.rows[docId].fileHash
    ensures UpsertDocument(db, doc).changed && UpsertDocument(db, doc).docId == docId
  {
    FindsOwnPath(db, docId);
    hide Inv, FindByPath, MarkStaleInTx;
  }

  /** On a changed file the job is the write of the document with its plan, and its own entry is gone. */
  lemma ReplanIsWrite(db: Db, jobId: int, docId: int, modelId: int, file: FileBytes, details: DocumentDetails,
                      provider: ProviderResult, now: int)
    requires Inv(db) && HasChanged(db, jobId, docId, modelId, file)
    ensures var freed := ApplyTx(db, CompleteTx(jobId));
            var doc := ReplannedDocument(db.documents.rows[docId], file, details, now);
            var plan := PlannedChunks(file, db.models.rows[modelId]);
            var after := AfterJob(db, jobId, docId, modelId, file, details, provider, now);
            && Inv(freed) && UpsertDocument(freed, doc).changed && UpsertDocument(freed, doc).docId == docId
            && after == UpsertAndReplacePending(freed, doc, modelId, plan, now)
            && jobId !in after.jobs.rows
  {
    hide PlannedChunks, Inv, ApplyTx, ApplyTxs, UpsertAndReplacePending, UpsertDocument;
    var doc := ReplannedDocument(db.documents.rows[docId], file, details, now);
    var plan := PlannedChunks(file, db.models.rows[modelId]);
    var freed := ApplyTx(db, CompleteTx(jobId));
    Freed(db, jobId, docId, modelId, file);
    WritesOwnPath(freed, docId, doc);
    KnownModelCommits(freed, doc, modelId, plan);
    UpsertQueuesEverything(freed, doc, modelId, plan, now);
    var write := UpsertTx(doc, modelId, plan, now);
    var planned := ApplyTx(freed, write);
    UpsertTxIs(freed, doc, modelId, plan, now);
    NothingToComplete(planned, jobId);
    ThreeTxs(db, CompleteTx(jobId), write, CompleteTx(jobId));
  }

  lemma UpsertTxIs(db: Db, doc: Document, modelId: int, plan: seq<ChunkRef>, now: int)
    ensures ApplyTx(db, UpsertTx(doc, modelId, plan, now)) == UpsertAndReplacePending(db, doc, modelId, plan, now)
  {
  }

  lemma NothingToComplete(db: Db, jobId: int)
    requires jobId !in db.jobs.rows
    ensures ApplyTx(db, CompleteTx(jobId)) == db
  {
  }

  lemma AwaitingIsPlanned(before: Rows, after: Rows, docId: int, modelId: int, plan: seq<ChunkRef>, now: int)
    requires KeysUnique(after) && PairAwaitsChunks(before, after, docId, modelId, plan, now)
    ensures PairIsPlanned(after, docId, modelId, plan) && PairIsDated(after, docId, modelId, now)
    ensures forall id :: id in after.rows && IsPair(after.rows[id], docId, modelId) ==> after.rows[id].embedding.None?
  {
    hide KeysUnique;
    forall k | 0 <= k < |plan|
      ensures HasChunk(after, docId, modelId, plan[k])
    {
      assert after.rows[before.nextId + k] == PendingRow(docId, modelId, plan[k], now);
    }
    forall id | id in after.rows && IsPair(after.rows[id], docId, modelId)
      ensures after.rows[id].state == Pending && after.rows[id].chunk in plan
      ensures after.rows[id].createdAt == now && after.rows[id].embedding.None?
    {
      assert after.rows[id] == PendingRow(docId, modelId, plan[id - before.nextId], now);
    }
  }

  /** Dispatching the job of a changed file stores the new hash under the old path and type, leaves exactly
      one Pending row per chunk planned from the new bytes, queues the pair anew, and outdates every other
      row of the document. */
  lemma ReplanPlansFile(db: Db, jobId: int, docId: int, modelId: int, file: FileBytes, details: DocumentDetails,
                        provider: ProviderResult, now: int)
    requires Inv(db) && HasChanged(db, jobId, docId, modelId, file)
    ensures var after := AfterJob(db, jobId, docId, modelId, file, details, provider, now);
            var stored := db.documents.rows[docId];
            && Inv(after)
            && after.documents.rows == db.documents.rows[docId :=
                 Document(stored.filepath, FileHash(file), details.(fileType := stored.details.fileType), now)]
            && PairIsPlanned(after.embeddings, docId, modelId, PlannedChunks(file, db.models.rows[modelId]))
            && PairIsDated(after.embeddings, docId, modelId, now)
            && HasJob(after.jobs, EmbedDocument(docId, modelId)) && jobId !in after.jobs.rows
            && IsOutdated(db, after, docId, modelId)
  {
    var doc := ReplannedDocument(db.documents.rows[docId], file, details, now);
    hide Inv, PlannedChunks, HasJob, ApplyTx, UpsertDocument, UpsertAndReplacePending, PairIsPlanned, AfterJob, RowsOk,
      KeysUnique, PairAwaitsChunks, ReplacePending, UpsertFails, IsOutdated, PairIsDated;
    var plan := PlannedChunks(file, db.models.rows[modelId]);
    var freed := ApplyTx(db, CompleteTx(jobId));
    Freed(db, jobId, docId, modelId, file);
    ReplanIsWrite(db, jobId, docId, modelId, file, details, provider, now);
    var after := AfterJob(db, jobId, docId, modelId, file, details, provider, now);
    UpsertAwaitsPlan(freed, doc, modelId, file, now);
    UpsertTxKeeps(freed, doc, modelId, plan, now);
    InvParts(after);
    RowsOkParts(after.embeddings);
    AwaitingIsPlanned(freed.embeddings, after.embeddings, docId, modelId, plan, now);
    KnownModelCommits(freed, doc, modelId, plan);
    UpsertStores(freed, doc);
    WriteKeepsDocuments(freed, doc, modelId, plan, now);
    ChangedWriteOutdates(freed, doc, modelId, plan, now);
    SameBefore(freed, db, after, docId, modelId);
  }

  lemma WriteKeepsDocuments(db: Db, doc: Document, modelId: int, plan: seq<ChunkRef>, now: int)
    requires UpsertDocument(db, doc).changed && !UpsertFails(db, doc, modelId, plan)
    ensures UpsertAndReplacePending(db, doc, modelId, plan, now).documents == UpsertDocument(db, doc).db.documents
  {
    hide UpsertDocument, UpsertPendingRows, SeedJobs;
  }

  lemma SameBefore(x: Db, y: Db, after: Db, docId: int, modelId: int)
    requires x.embeddings == y.embeddings && IsOutdated(x, after, docId, modelId)
    ensures IsOutdated(y, after, docId, modelId)
  {
  }

  /** And a second dispatch, on the file that was planned and with the provider's answers, embeds exactly
      that text: one row per planned chunk and no others, each with the vector of its text. */
  lemma ReplanThenEmbedIsExact(db: Db, jobId: int, docId: int, modelId: int, file: FileBytes, details: DocumentDetails,
                               provider: ProviderResult, now: int, nextJobId: int, vectors: seq<Vector>, later: int)
    requires Inv(db) && HasChanged(db, jobId, docId, modelId, file) && IndexFits(db, modelId)
    requires var planned := AfterJob(db, jobId, docId, modelId, file, details, provider, now);
             && modelId in planned.models.rows
             && AnswersEach(planned, modelId, |ListRecoverable(planned.embeddings, docId, modelId)|, vectors)
    ensures var planned := AfterJob(db, jobId, docId, modelId, file, details, provider, now);
            var after := AfterJob(planned, nextJobId, docId, modelId, file, details, Vectors(vectors), later);
            var filepath := db.documents.rows[docId].filepath;
            var rows := ChunksAt(planned.embeddings, ListRecoverable(planned.embeddings, docId, modelId));
            var prepared := PreparedChunks(filepath, file, rows);
            && prepared.Success? && |prepared.value| == |vectors|
            && IsExactlyPlanned(after, docId, modelId, filepath, file, prepared.value, vectors,
                                PlannedChunks(file, db.models.rows[modelId]))
  {
    var doc := ReplannedDocument(db.documents.rows[docId], file, details, now);
    hide Inv, PlannedChunks, ApplyTx, ApplyTxs, JobTxs, UpsertDocument, UpsertAndReplacePending, ListRecoverable,
      PreparedChunks, IsExactlyPlanned, AnswersEach;
    var freed := ApplyTx(db, CompleteTx(jobId));
    Freed(db, jobId, docId, modelId, file);
    ReplanIsWrite(db, jobId, docId, modelId, file, details, provider, now);
    PlanThenEmbedIsExact(freed, doc, modelId, file, nextJobId, details, vectors, now, later);
  }
}
