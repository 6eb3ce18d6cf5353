/** Startup reconciliation: resolve the configured model, plan every existing document for a new one,
    and queue whatever still needs embedding. */
module Startup {
  import opened Prelude
  import opened Utf8
  import opened Types
  import opened Tables
  import opened Ordering
  import opened JobQueue
  import opened StoreSpec
  import opened StoreInvariant
  import opened StoreSteps
  import opened StoreRuns
  import opened ContentRead
  import opened ChunkPlanning
  import opened EmbedJob
  import opened EmbedResults
  import opened PlanThenEmbed
  import opened Seeding
  import opened Database

  /** The readable files; reading any other path fails. */
  type Files = map<Path, FileBytes>

  /** An unreadable file is planned by its name alone. */
  function QueuedChunks(files: Files, filepath: Path, model: EmbeddingIdentity): seq<ChunkRef> {
    if filepath in files then PlannedChunks(files[filepath], model) else [ChunkRef(Filename, 0, 0)]
  }

  /** The listing of all documents, each once. The order is by path. */
  ghost predicate IsListing(documents: Table<Document>, listing: seq<int>) {
    && (forall id :: id in listing <==> id in documents.rows)
    && forall j, k :: 0 <= j < k < |listing| ==> listing[j] != listing[k]
  }

  predicate AllExist(db: Db, docIds: seq<int>) { forall k :: 0 <= k < |docIds| ==> docIds[k] in db.documents.rows }

  function QueueDocument(db: Db, docId: int, modelId: int, model: EmbeddingIdentity, files: Files, now: int): Db
    requires docId in db.documents.rows
  {
    QueuePending(db, docId, modelId, QueuedChunks(files, db.documents.rows[docId].filepath, model), now)
  }

  function BackfillDocuments(db: Db, docIds: seq<int>, modelId: int, model: EmbeddingIdentity, files: Files, now: int)
    : (after: Db)
    requires AllExist(db, docIds)
    ensures after.documents == db.documents && after.models == db.models && after.jobs == db.jobs
    ensures after.search == db.search
  {
    if docIds == [] then db
    else QueueDocument(BackfillDocuments(db, docIds[..|docIds| - 1], modelId, model, files, now),
                       docIds[|docIds| - 1], modelId, model, files, now)
  }

  /** The store after startup reconciliation, and the id of the configured model. */
  function Reconciled(db: Db, identity: EmbeddingIdentity, listing: seq<int>, files: Files, now: int): (Db, int)
    requires AllExist(db, listing)
  {
    match FindModel(db.models, identity)
    case Some(id) => (Seed(db, now), id)
    case None =>
      var id := db.models.nextId;
      var registered := db.(models := Insert(db.models, identity));
      (Seed(Seed(BackfillDocuments(registered, listing, id, identity, files, now), now), now), id)
  }

  // -------------------------------------------------------------------------
  // The statements
  // -------------------------------------------------------------------------

  datatype SummaryKind = Empty | Recovered | Idle

  datatype StartupState = StartupState(
    modelId: int, backfilledDocuments: nat, seededJobs: nat, documentCount: nat, recoverablePairs: nat,
    summaryKind: SummaryKind)

  function ClassifySummary(documentCount: nat, recoverablePairs: nat): SummaryKind {
    if documentCount == 0 then Empty else if recoverablePairs > 0 then Recovered else Idle
  }

  method BackfillPendingForModel(store: Store, modelId: int, model: EmbeddingIdentity, listing: seq<int>, files: Files,
                                 now: int)
    returns (count: nat)
    requires IdsBelow(store.embeddings) && KeysUnique(store.embeddings) && JobsOk(store.jobs)
    requires AllExist(store.Snapshot(), listing) && modelId in store.models.rows
    modifies store
    ensures JobsOk(store.jobs)
    ensures store.Snapshot()
         == Seed(BackfillDocuments(old(store.Snapshot()), listing, modelId, model, files, now), now)
    ensures count == |listing|
  {
    ghost var db := store.Snapshot();
    hide KeysUnique, QueuePending, QueuedChunks, SeedJobs, JobsOk;
    count := 0;
    assert listing[..0] == [];
    for k := 0 to |listing|
      invariant AllExist(db, listing[..k])
      invariant store.Snapshot() == BackfillDocuments(db, listing[..k], modelId, model, files, now)
      invariant IdsBelow(store.embeddings) && KeysUnique(store.embeddings)
      invariant count == k
    {
      assert listing[..k + 1][..k] == listing[..k];
      var chunks := QueuedChunks(files, store.documents.rows[listing[k]].filepath, model);
      var _ := store.InsertPendingEmbeddings(listing[k], modelId, chunks, now);
      count := count + 1;
    }
    assert listing[..|listing|] == listing;
    var _ := store.SeedEmbedJobs(now);
  }

  method ReconcileEmbeddingStartup(store: Store, identity: EmbeddingIdentity, listing: seq<int>, files: Files, now: int)
    returns (state: StartupState)
    requires store.Valid() && AllExist(store.Snapshot(), listing)
    modifies store
    ensures (store.Snapshot(), state.modelId) == Reconciled(old(store.Snapshot()), identity, listing, files, now)
    ensures state.backfilledDocuments == if FindModel(old(store.models), identity).Some? then 0 else |listing|
    ensures state.seededJobs == if FindModel(old(store.models), identity).None? then 0
                                else |AcceptedPairs(old(store.jobs), old(store.embeddings), now)|
    ensures state.documentCount == |store.documents.rows|
    ensures state.recoverablePairs == |RecoverablePairs(store.embeddings)|
    ensures state.summaryKind == ClassifySummary(state.documentCount, state.recoverablePairs)
  {
    ghost var db := store.Snapshot();
    assert IdsBelow(store.embeddings) && KeysUnique(store.embeddings) && JobsOk(store.jobs) by {
      InvParts(db);
      RowsOkParts(db.embeddings);
    }
    hide Inv, KeysUnique, JobsOk, SeedJobs, BackfillDocuments, AcceptedPairs;
    var modelId, backfilled := 0, 0;
    match FindModel(store.models, identity) {
      case Some(id) =>
        modelId := id;
      case None =>
        modelId := store.models.nextId;
        store.models := Insert(store.models, identity);
        assert AllExist(store.Snapshot(), listing);
        ghost var registered := store.Snapshot();
        backfilled := BackfillPendingForModel(store, modelId, identity, listing, files, now);
        SeedIsIdempotent(BackfillDocuments(registered, listing, modelId, identity, files, now), now);
    }
    var seeded := store.SeedEmbedJobs(now);
    var documentCount := |store.documents.rows|;
    var recoverablePairs := |RecoverablePairs(store.embeddings)|;
    state := StartupState(modelId, backfilled, seeded, documentCount, recoverablePairs,
                          ClassifySummary(documentCount, recoverablePairs));
  }

  /** The summary says Empty exactly without documents, and Idle exactly when there are documents and
      every embedding row is Embedded. */
  lemma SummaryIsExact(db: Db)
    ensures var summary := ClassifySummary(|db.documents.rows|, |RecoverablePairs(db.embeddings)|);
            && (summary == Empty <==> db.documents.rows == map[])
            && (summary == Idle <==> db.documents.rows != map[]
                                     && forall id :: id in db.embeddings.rows ==>
                                          db.embeddings.rows[id].state == Embedded)
  {
    var pairs := RecoverablePairs(db.embeddings);
    assert forall id :: id in db.embeddings.rows && IsRecoverable(db.embeddings.rows[id]) ==>
      Key(db.embeddings.rows[id].documentId, db.embeddings.rows[id].modelId, 0) in pairs;
    if pairs != {} {
      var pair :| pair in pairs;
    }
  }

  // -------------------------------------------------------------------------
  // Startup establishes that no work is lost, from any stored database
  // -------------------------------------------------------------------------

  lemma StartupQueuesEverything(db: Db, identity: EmbeddingIdentity, listing: seq<int>, files: Files, now: int)
    requires JobsOk(db.jobs) && AllExist(db, listing)
    ensures NoLostWork(Reconciled(db, identity, listing, files, now).0)
  {
    hide NoLostWork, Seed, JobsOk;
    match FindModel(db.models, identity)
    case Some(_) => SeedCovers(db, now);
    case None =>
      var registered := db.(models := Insert(db.models, identity));
      var planned := BackfillDocuments(registered, listing, db.models.nextId, identity, files, now);
      SeedCovers(planned, now);
      SeedCovers(Seed(planned, now), now);
  }

  // -------------------------------------------------------------------------
  // A new model sees the whole corpus
  // -------------------------------------------------------------------------

  ghost predicate ModelIsAbsent(rows: Rows, modelId: int) {
    forall id :: id in rows.rows ==> rows.rows[id].modelId != modelId
  }

  /** The pair has exactly one Pending row per chunk. */
  ghost predicate PairIsPlanned(rows: Rows, docId: int, modelId: int, chunks: seq<ChunkRef>) {
    && KeysUnique(rows)
    && PairIsPending(rows, docId, modelId)
    && OnlyPlanned(rows, docId, modelId, chunks)
    && forall k :: 0 <= k < |chunks| ==> HasChunk(rows, docId, modelId, chunks[k])
  }

  lemma QueuedChunksAreDistinct(files: Files, filepath: Path, model: EmbeddingIdentity)
    ensures DistinctRefs(QueuedChunks(files, filepath, model))
  {
    hide PlannedChunks;
    if filepath in files { PlanIsDistinct(files[filepath], model); }
  }

  lemma FreshPairIsPlanned(rows: Rows, docId: int, modelId: int, chunks: seq<ChunkRef>, now: int)
    requires RowsOk(rows) && PairIsAbsent(rows, docId, modelId) && DistinctRefs(chunks)
    ensures PairIsPlanned(UpsertPendingRows(rows, docId, modelId, chunks, now), docId, modelId, chunks)
  {
    var after := UpsertPendingRows(rows, docId, modelId, chunks, now);
    UpsertPendingAppends(rows, docId, modelId, chunks, now);
    UpsertPendingRowsEffect(rows, docId, modelId, chunks, now);
    hide UpsertPendingRows, KeysUnique, Homogeneous, DistinctRefs, OthersKept;
    forall k | 0 <= k < |chunks|
      ensures HasChunk(after, docId, modelId, chunks[k])
    {
      assert after.rows[rows.nextId + k] == PendingRow(docId, modelId, chunks[k], now);
    }
    forall id | id in after.rows && IsPair(after.rows[id], docId, modelId)
      ensures after.rows[id].chunk in chunks
    {
      assert after.rows[id] == PendingRow(docId, modelId, chunks[id - rows.nextId], now);
    }
  }

  lemma OtherPairStaysPlanned(before: Rows, after: Rows, docId: int, modelId: int, other: int, chunks: seq<ChunkRef>)
    requires OthersKept(before, after, other, modelId) && other != docId && KeysUnique(after)
    requires PairIsPlanned(before, docId, modelId, chunks)
    ensures PairIsPlanned(after, docId, modelId, chunks)
  {
    hide KeysUnique;
    forall k | 0 <= k < |chunks|
      ensures HasChunk(after, docId, modelId, chunks[k])
    {
      assert HasChunk(before, docId, modelId, chunks[k]);
      var id :| id in before.rows && IsPair(before.rows[id], docId, modelId) && before.rows[id].chunk == chunks[k];
      assert id in after.rows && after.rows[id] == before.rows[id];
    }
  }

  /** Only the listed documents have rows of the new model. */
  ghost predicate OnlyListed(rows: Rows, docIds: seq<int>, modelId: int) {
    forall id :: id in rows.rows && rows.rows[id].modelId == modelId ==> rows.rows[id].documentId in docIds
  }

  ghost predicate AllPlanned(db: Db, docIds: seq<int>, modelId: int, model: EmbeddingIdentity, files: Files)
    requires AllExist(db, docIds)
  {
    forall k :: 0 <= k < |docIds| ==>
      PairIsPlanned(db.embeddings, docIds[k], modelId,
                    QueuedChunks(files, db.documents.rows[docIds[k]].filepath, model))
  }

  lemma {:induction false} BackfillPlansEach(db: Db, docIds: seq<int>, modelId: int, model: EmbeddingIdentity,
                                             files: Files, now: int)
    requires RowsOk(db.embeddings) && ModelIsAbsent(db.embeddings, modelId) && AllExist(db, docIds)
    requires forall j, k :: 0 <= j < k < |docIds| ==> docIds[j] != docIds[k]
    ensures var after := BackfillDocuments(db, docIds, modelId, model, files, now);
            && RowsOk(after.embeddings)
            && OnlyListed(after.embeddings, docIds, modelId)
            && AllPlanned(after, docIds, modelId, model, files)
  {
    hide RowsOk, KeysUnique, UpsertPendingRows, QueuedChunks, PairIsPlanned, OthersKept;
    if docIds != [] {
      var init, last := docIds[..|docIds| - 1], docIds[|docIds| - 1];
      BackfillPlansEach(db, init, modelId, model, files, now);
      var mid := BackfillDocuments(db, init, modelId, model, files, now);
      var chunks := QueuedChunks(files, db.documents.rows[last].filepath, model);
      var after := UpsertPendingRows(mid.embeddings, last, modelId, chunks, now);
      assert last !in init;
      QueuedChunksAreDistinct(files, db.documents.rows[last].filepath, model);
      assert PairIsAbsent(mid.embeddings, last, modelId);
      UpsertPendingRowsEffect(mid.embeddings, last, modelId, chunks, now);
      FreshPairIsPlanned(mid.embeddings, last, modelId, chunks, now);
      ListedGrows(mid.embeddings, after, init, last, docIds, modelId);
      RowsOkParts(after);
      forall k | 0 <= k < |docIds|
        ensures PairIsPlanned(after, docIds[k], modelId,
                              QueuedChunks(files, db.documents.rows[docIds[k]].filepath, model))
      {
        if k < |docIds| - 1 {
          assert init[k] == docIds[k];
          OtherPairStaysPlanned(mid.embeddings, after, docIds[k], modelId, last,
                                QueuedChunks(files, db.documents.rows[docIds[k]].filepath, model));
        }
      }
    }
  }

  lemma ListedGrows(before: Rows, after: Rows, init: seq<int>, last: int, docIds: seq<int>, modelId: int)
    requires OnlyListed(before, init, modelId) && OthersKept(before, after, last, modelId) && docIds == init + [last]
    ensures OnlyListed(after, docIds, modelId)
  {
  }

  /** A newly registered model: afterwards every document has exactly one Pending row of the model per
      planned chunk of its file, and its embed job is queued. */
  lemma NewModelSeesCorpus(db: Db, identity: EmbeddingIdentity, listing: seq<int>, files: Files, now: int, docId: int)
    requires Inv(db) && IsListing(db.documents, listing) && AllExist(db, listing)
    requires FindModel(db.models, identity).None? && docId in db.documents.rows
    ensures var (after, modelId) := Reconciled(db, identity, listing, files, now);
            && PairIsPlanned(after.embeddings, docId, modelId,
                             QueuedChunks(files, db.documents.rows[docId].filepath, identity))
            && HasJob(after.jobs, EmbedDocument(docId, modelId))
  {
    var (after, modelId) := Reconciled(db, identity, listing, files, now);
    var registered := db.(models := Insert(db.models, identity));
    var chunks := QueuedChunks(files, db.documents.rows[docId].filepath, identity);
    NewModelIsAbsent(db);
    InvParts(db);
    BackfillPlansEach(registered, listing, modelId, identity, files, now);
    StartupQueuesEverything(db, identity, listing, files, now);
    QueuedChunksAreSome(files, db.documents.rows[docId].filepath, identity);
    hide Inv, RowsOk, NoLostWork, HasJob, QueuedChunks, BackfillDocuments, SeedJobs;
    var k :| 0 <= k < |listing| && listing[k] == docId;
    assert PairIsPlanned(after.embeddings, docId, modelId, chunks);
    assert HasChunk(after.embeddings, docId, modelId, chunks[0]);
    PlannedPairIsQueued(after, docId, modelId, chunks);
  }

  /** For a file that can be read these are the chunks of its text, for any other the filename alone. */
  lemma NewModelPlansFiles(db: Db, identity: EmbeddingIdentity, listing: seq<int>, files: Files, now: int, docId: int)
    requires Inv(db) && IsListing(db.documents, listing) && AllExist(db, listing)
    requires FindModel(db.models, identity).None? && docId in db.documents.rows
    ensures var (after, modelId) := Reconciled(db, identity, listing, files, now);
            var filepath := db.documents.rows[docId].filepath;
            PairIsPlanned(after.embeddings, docId, modelId,
                          if filepath in files then PlannedChunks(files[filepath], identity)
                          else [ChunkRef(Filename, 0, 0)])
  {
    NewModelSeesCorpus(db, identity, listing, files, now, docId);
    hide Inv, PairIsPlanned, PlannedChunks, Reconciled;
  }

  lemma PlannedPairIsQueued(db: Db, docId: int, modelId: int, chunks: seq<ChunkRef>)
    requires NoLostWork(db) && PairIsPlanned(db.embeddings, docId, modelId, chunks) && chunks != []
    ensures HasJob(db.jobs, EmbedDocument(docId, modelId))
  {
    hide HasJob, KeysUnique;
    assert HasChunk(db.embeddings, docId, modelId, chunks[0]);
  }

  lemma QueuedChunksAreSome(files: Files, filepath: Path, model: EmbeddingIdentity)
    ensures QueuedChunks(files, filepath, model) != []
  {
    hide PlannedChunks;
    if filepath in files { PlanIsNotEmpty(files[filepath], model); }
  }

  lemma NewModelIsAbsent(db: Db)
    requires Inv(db)
    ensures ModelIsAbsent(db.embeddings, db.models.nextId)
  {
    hide RowsOk, JobsOk, PathsUnique, VecSound;
    forall id | id in db.embeddings.rows
      ensures db.embeddings.rows[id].modelId != db.models.nextId
    {
      assert RowIsSound(db, db.embeddings.rows[id]);
    }
  }
}
