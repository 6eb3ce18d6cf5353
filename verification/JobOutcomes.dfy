/** What a dispatched job leaves behind when it does not succeed. */
module JobOutcomes {
  import opened Prelude
  import opened Types
  import opened Tables
  import opened JobQueue
  import opened StoreSpec
  import opened StoreInvariant
  import opened Utf8
  import opened ContentRead
  import opened ChunkPlanning
  import opened EmbedJob
  import opened EmbedResults
  import opened PlanThenEmbed

  /** The pair needs embedding and its rows were planned from the unchanged file. */
  ghost predicate IsDue(db: Db, docId: int, modelId: int, file: FileBytes) {
    && docId in db.documents.rows && modelId in db.models.rows
    && db.documents.rows[docId].fileHash == FileHash(file)
    && PairIsRecoverable(db.embeddings, docId, modelId)
    && OnlyPlanned(db.embeddings, docId, modelId, PlannedChunks(file, db.models.rows[modelId]))
  }

  lemma DueJobAsks(db: Db, jobId: int, docId: int, modelId: int, file: FileBytes, details: DocumentDetails,
                   provider: ProviderResult, now: int)
    requires IsDue(db, docId, modelId, file)
    ensures provider.Transient? ==>
              JobTxs(db, jobId, docId, modelId, Present(file, true, details), provider, now)
              == [QueueTx(DeferOp(jobId, now, provider.retryAfterSecs))]
    ensures provider.Permanent? ==>
              JobTxs(db, jobId, docId, modelId, Present(file, true, details), provider, now) == []
  {
    hide PlannedChunks, ListRecoverable, PreparedChunks, PairIsRecoverable, OnlyPlanned, SeesPlannedText;
    var filepath := db.documents.rows[docId].filepath;
    var ids := ListRecoverable(db.embeddings, docId, modelId);
    ListedChunksArePlanned(db.embeddings, docId, modelId, PlannedChunks(file, db.models.rows[modelId]));
    EmbedSeesPlannedText(filepath, file, db.models.rows[modelId], ChunksAt(db.embeddings, ids));
    ListIsNotEmpty(db.embeddings, docId, modelId);
    ChunksAtShape(db.embeddings, ids);
  }

  /** A transient failure changes the job's row alone, which may be claimed again at exactly the clocks from
      the provider's delay on, capped at a day. */
  lemma TransientFailureDelays(db: Db, jobId: int, docId: int, modelId: int, file: FileBytes, details: DocumentDetails,
                               retryAfterSecs: nat, now: int, t: int)
    requires IsDue(db, docId, modelId, file) && jobId in db.jobs.rows
    ensures var after := ApplyTxs(db, JobTxs(db, jobId, docId, modelId, Present(file, true, details),
                                             Transient(retryAfterSecs), now));
            && after.(jobs := db.jobs) == db && jobId in after.jobs.rows
            && after.jobs.rows[jobId].payload == db.jobs.rows[jobId].payload
            && (forall id :: id in db.jobs.rows && id != jobId ==>
                  id in after.jobs.rows && after.jobs.rows[id] == db.jobs.rows[id])
            && (IsClaimable(after.jobs.rows[jobId], t) <==> t >= now + Min(retryAfterSecs, 86400))
  {
    hide JobTxs, IsDue, ApplyTxs;
    DueJobAsks(db, jobId, docId, modelId, file, details, Transient(retryAfterSecs), now);
    OneTx(db, QueueTx(DeferOp(jobId, now, retryAfterSecs)));
  }

  /** A refusal, and a file that cannot be looked at or hashed, change nothing: the claim stays. */
  lemma RefusalKeepsClaim(db: Db, jobId: int, docId: int, modelId: int, file: FileBytes, details: DocumentDetails,
                          provider: ProviderResult, now: int)
    requires IsDue(db, docId, modelId, file)
    ensures ApplyTxs(db, JobTxs(db, jobId, docId, modelId, Present(file, true, details), Permanent, now)) == db
    ensures ApplyTxs(db, JobTxs(db, jobId, docId, modelId, MetadataFails, provider, now)) == db
    ensures ApplyTxs(db, JobTxs(db, jobId, docId, modelId, HashFails, provider, now)) == db
  {
    DueJobAsks(db, jobId, docId, modelId, file, details, Permanent, now);
    hide EmbedTxs;
  }

  /** Neither does a model that is not registered, a file whose content cannot be read again, or a reply with
      another number of vectors than rows. */
  lemma UnusableReplyKeepsClaim(db: Db, jobId: int, docId: int, modelId: int, file: FileBytes, details: DocumentDetails,
                                view: FileView, provider: ProviderResult, vectors: seq<Vector>, now: int)
    requires docId in db.documents.rows
    ensures modelId !in db.models.rows ==>
              ApplyTxs(db, JobTxs(db, jobId, docId, modelId, view, provider, now)) == db
    ensures IsDue(db, docId, modelId, file) && HasContent(ListedChunks(db, docId, modelId)) ==>
              ApplyTxs(db, JobTxs(db, jobId, docId, modelId, Present(file, false, details), provider, now)) == db
    ensures IsDue(db, docId, modelId, file) && |vectors| != |ListedChunks(db, docId, modelId)| ==>
              ApplyTxs(db, JobTxs(db, jobId, docId, modelId, Present(file, true, details), Vectors(vectors), now)) == db
  {
    hide ListRecoverable, PairIsRecoverable, PlannedChunks, PreparedChunks, HasContent, OnlyPlanned;
    if IsDue(db, docId, modelId, file) {
      ListIsNotEmpty(db.embeddings, docId, modelId);
      ChunksAtShape(db.embeddings, ListRecoverable(db.embeddings, docId, modelId));
      CountIsKept(db.documents.rows[docId].filepath, file, ListedChunks(db, docId, modelId));
    }
  }

  function ListedChunks(db: Db, docId: int, modelId: int): seq<ChunkRef> {
    ChunksAt(db.embeddings, ListRecoverable(db.embeddings, docId, modelId))
  }

  lemma CountIsKept(filepath: seq<byte>, file: FileBytes, rows: seq<ChunkRef>)
    ensures PreparedChunks(filepath, file, rows).Success? ==> |PreparedChunks(filepath, file, rows).value| == |rows|
  {
    hide RereadContent;
  }

  /** A file that is gone takes its document along: rows, vectors and the job's entry. */
  lemma MissingFileDeletes(db: Db, jobId: int, docId: int, modelId: int, provider: ProviderResult, now: int)
    requires docId in db.documents.rows && modelId in db.models.rows
    ensures var after := ApplyTxs(db, JobTxs(db, jobId, docId, modelId, NotFound, provider, now));
            && docId !in after.documents.rows && jobId !in after.jobs.rows
            && (forall id :: id in after.embeddings.rows <==>
                  id in db.embeddings.rows && db.embeddings.rows[id].documentId != docId)
            && (after.vec.Some? ==> forall id :: id in after.vec.value.entries ==>
                  id in db.embeddings.rows ==> db.embeddings.rows[id].documentId != docId)
            && (forall id :: id in db.documents.rows && id != docId ==>
                  id in after.documents.rows && after.documents.rows[id] == db.documents.rows[id])
  {
    TwoTxs(db, DeleteTx(docId), CompleteTx(jobId));
    hide ApplyTxs;
  }
}
