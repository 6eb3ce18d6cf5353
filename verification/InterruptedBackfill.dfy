/** A crash in the middle of planning the corpus for a new model, between two documents or between two
    rows of one: the next start finds the model and plans nothing more. */
module InterruptedBackfill {
  import opened Prelude
  import opened Types
  import opened Tables
  import opened Ordering
  import opened JobQueue
  import opened StoreSpec
  import opened StoreInvariant
  import opened StoreSteps
  import opened StoreRuns
  import opened EmbedJob
  import opened EmbedResults
  import opened PlanThenEmbed
  import opened Startup
  import opened StartupRun
  import opened CrowdedIndex
  import opened Utf8
  import opened ContentRead
  import opened ChunkPlanning
  import opened Chunking
  import opened ChunkCoverage
  import EndOrder

  /** The pair has exactly one row per chunk, in any state. */
  ghost predicate IsPlanned(rows: Rows, docId: int, modelId: int, chunks: seq<ChunkRef>) {
    && KeysUnique(rows)
    && OnlyPlanned(rows, docId, modelId, chunks)
    && forall k :: 0 <= k < |chunks| ==> HasChunk(rows, docId, modelId, chunks[k])
  }

  /** Every document has its whole plan for the model. */
  ghost predicate CorpusIsPlanned(db: Db, modelId: int, model: EmbeddingIdentity, files: Files) {
    forall docId :: docId in db.documents.rows ==>
      IsPlanned(db.embeddings, docId, modelId, QueuedChunks(files, db.documents.rows[docId].filepath, model))
  }

  /** After startup every document has its whole plan for the configured model exactly when the model was
      not yet registered, or every document already had it. */
  lemma StartupPlansAllIff(db: Db, identity: EmbeddingIdentity, listing: seq<int>, files: Files, now: int)
    requires Inv(db) && IsListing(db.documents, listing) && AllExist(db, listing)
    ensures var (after, modelId) := Reconciled(db, identity, listing, files, now);
            CorpusIsPlanned(after, modelId, identity, files) <==>
              || FindModel(db.models, identity).None?
              || CorpusIsPlanned(db, FindModel(db.models, identity).value, identity, files)
  {
    hide Inv, IsListing, IsPlanned, Seed, QueuedChunks;
    match FindModel(db.models, identity)
    case Some(id) => SeedKeepsRows(db, now);
    case None =>
      var (after, modelId) := Reconciled(db, identity, listing, files, now);
      ReconciledDocuments(db, identity, listing, files, now);
      forall docId | docId in after.documents.rows
        ensures IsPlanned(after.embeddings, docId, modelId,
                          QueuedChunks(files, after.documents.rows[docId].filepath, identity))
      {
        NewModelSeesCorpus(db, identity, listing, files, now, docId);
        PendingPlanIsPlan(after.embeddings, docId, modelId,
                          QueuedChunks(files, db.documents.rows[docId].filepath, identity));
      }
  }

  lemma ReconciledDocuments(db: Db, identity: EmbeddingIdentity, listing: seq<int>, files: Files, now: int)
    requires AllExist(db, listing)
    ensures Reconciled(db, identity, listing, files, now).0.documents == db.documents
  {
    hide SeedJobs, BackfillDocuments;
  }

  lemma PendingPlanIsPlan(rows: Rows, docId: int, modelId: int, chunks: seq<ChunkRef>)
    requires PairIsPlanned(rows, docId, modelId, chunks)
    ensures IsPlanned(rows, docId, modelId, chunks)
  {
  }

  // -------------------------------------------------------------------------
  // The interrupted run
  // -------------------------------------------------------------------------

  /** Registering the model, planning the documents `done`, writing the rows `written` of one more, a
      crash, and a complete second startup. */
  function InterruptedSteps(db: Db, identity: EmbeddingIdentity, done: seq<int>, docId: int, written: seq<ChunkRef>,
                            files: Files, now: int): seq<Step>
    requires AllExist(db, done)
  {
    [Boot(identity)] + CorpusSteps(db.(models := Insert(db.models, identity)), done, identity, files, now)
    + RowSteps(docId, written, now) + [Crash] + [Boot(identity)] + [FinishSeeding(now)]
  }

  function WrittenRows(db: Db, identity: EmbeddingIdentity, done: seq<int>, docId: int, written: seq<ChunkRef>,
                       files: Files, now: int): Db
    requires AllExist(db, done)
  {
    var registered := db.(models := Insert(db.models, identity));
    var mid := BackfillDocuments(registered, done, db.models.nextId, identity, files, now);
    mid.(embeddings := UpsertPendingRows(mid.embeddings, docId, db.models.nextId, written, now))
  }

  lemma RunUntilCrash(db: Db, torn: bool, identity: EmbeddingIdentity, done: seq<int>, docId: int,
                      written: seq<ChunkRef>, files: Files, now: int)
    requires FindModel(db.models, identity).None? && IsConfigured(identity) && AllExist(db, done)
    requires docId in db.documents.rows
    ensures var corpus := CorpusSteps(db.(models := Insert(db.models, identity)), done, identity, files, now);
            Run(Sys(db, Down, torn), [Boot(identity)] + corpus + RowSteps(docId, written, now) + [Crash])
            == Sys(WrittenRows(db, identity, done, docId, written, files, now), Down, torn)
  {
    hide Run, BackfillDocuments, CorpusSteps, FindModel, RowSteps, UpsertPendingRows;
    var start, modelId := Sys(db, Down, torn), db.models.nextId;
    var registered := db.(models := Insert(db.models, identity));
    var corpus := CorpusSteps(registered, done, identity, files, now);
    assert AllExist(registered, done);
    var booted := Next(start, Boot(identity));
    NothingRuns(start);
    RunLast(start, [], Boot(identity));
    assert [] + [Boot(identity)] == [Boot(identity)];
    CorpusStepsBackfill(booted, done, identity, files, now);
    RunAppend(start, [Boot(identity)], corpus);
    var mid := booted.(db := BackfillDocuments(registered, done, modelId, identity, files, now));
    RowStepsUpsert(mid, docId, written, now);
    RunAppend(start, [Boot(identity)] + corpus, RowSteps(docId, written, now));
    RunLast(start, [Boot(identity)] + corpus + RowSteps(docId, written, now), Crash);
  }

  lemma RestartAfterCrash(stopped: Sys, modelId: int, identity: EmbeddingIdentity, before: seq<Step>, start: Sys,
                          now: int)
    requires IsReachable(start) && stopped == Run(start, before) && stopped.phase == Down && IsConfigured(identity)
    requires modelId in stopped.db.models.rows && stopped.db.models.rows[modelId] == identity
    ensures var steps := before + [Boot(identity)] + [FinishSeeding(now)];
            && Run(start, steps) == Sys(Seed(stopped.db, now), Indexing(modelId), stopped.torn)
            && IsReachable(Run(start, steps))
  {
    hide Run, IsReachable, Seed, FindModel;
    RunIsReachable(start, before);
    FindsRegistered(stopped, modelId, identity);
    RunLast(start, before, Boot(identity));
    RunLast(start, before + [Boot(identity)], FinishSeeding(now));
    RunIsReachable(start, before + [Boot(identity)] + [FinishSeeding(now)]);
  }

  /** What of a document's plan was written before the crash. */
  function WrittenPlan(db: Db, identity: EmbeddingIdentity, done: seq<int>, docId: int, written: seq<ChunkRef>,
                       files: Files, other: int): seq<ChunkRef>
    requires other in db.documents.rows
  {
    if other in done then QueuedChunks(files, db.documents.rows[other].filepath, identity)
    else if other == docId then written
    else []
  }

  lemma WrittenPlans(db: Db, identity: EmbeddingIdentity, done: seq<int>, docId: int, written: seq<ChunkRef>,
                     files: Files, now: int, other: int)
    requires Inv(db) && AllExist(db, done) && (forall j, k :: 0 <= j < k < |done| ==> done[j] != done[k])
    requires docId !in done && DistinctRefs(written) && other in db.documents.rows
    ensures PairIsPlanned(WrittenRows(db, identity, done, docId, written, files, now).embeddings, other,
                          db.models.nextId, WrittenPlan(db, identity, done, docId, written, files, other))
  {
    var modelId := db.models.nextId;
    var registered := db.(models := Insert(db.models, identity));
    NewModelIsAbsent(db);
    InvParts(db);
    assert AllExist(registered, done);
    BackfillPlansEach(registered, done, modelId, identity, files, now);
    var mid := BackfillDocuments(registered, done, modelId, identity, files, now).embeddings;
    var after := UpsertPendingRows(mid, docId, modelId, written, now);
    hide Inv, RowsOk, KeysUnique, BackfillDocuments, UpsertPendingRows, QueuedChunks, OthersKept, DistinctRefs;
    assert PairIsAbsent(mid, docId, modelId);
    UpsertPendingRowsEffect(mid, docId, modelId, written, now);
    RowsOkParts(after);
    FreshPairIsPlanned(mid, docId, modelId, written, now);
    if other in done {
      OtherPairStaysPlanned(mid, after, other, modelId, docId,
                            QueuedChunks(files, db.documents.rows[other].filepath, identity));
    } else if other != docId {
      ListedGrows(mid, after, done, docId, done + [docId], modelId);
      NothingPlanned(after, done + [docId], modelId, other);
    }
  }

  lemma NothingPlanned(rows: Rows, done: seq<int>, modelId: int, docId: int)
    requires KeysUnique(rows) && OnlyListed(rows, done, modelId) && docId !in done
    ensures PairIsPlanned(rows, docId, modelId, [])
  {
  }

  lemma MissingChunk(rows: Rows, docId: int, modelId: int, plan: seq<ChunkRef>, n: nat)
    requires DistinctRefs(plan) && n < |plan| && PairIsPlanned(rows, docId, modelId, plan[..n])
    ensures !IsPlanned(rows, docId, modelId, plan)
  {
    assert plan[n] !in plan[..n];
  }

  lemma PrefixIsDistinct(plan: seq<ChunkRef>, n: nat)
    requires DistinctRefs(plan) && n <= |plan|
    ensures DistinctRefs(plan[..n])
  {
  }

  /** From any reachable stopped store, wherever the crash falls: after the second startup each document has
      exactly the part of its plan that was written before the crash. So the corpus is not planned if one
      row was missing, and no later start plans it. */
  lemma InterruptedPlanStays(db: Db, torn: bool, identity: EmbeddingIdentity, done: seq<int>, docId: int, n: nat,
                             files: Files, now: int)
    requires IsReachable(Sys(db, Down, torn)) && FindModel(db.models, identity).None? && IsConfigured(identity)
    requires AllExist(db, done) && (forall j, k :: 0 <= j < k < |done| ==> done[j] != done[k])
    requires docId in db.documents.rows && docId !in done
    requires n <= |QueuedChunks(files, db.documents.rows[docId].filepath, identity)|
    ensures var plan := QueuedChunks(files, db.documents.rows[docId].filepath, identity);
            var sys := Run(Sys(db, Down, torn), InterruptedSteps(db, identity, done, docId, plan[..n], files, now));
            && IsReachable(sys) && sys.phase == Indexing(db.models.nextId) && sys.db.documents == db.documents
            && (forall other :: other in db.documents.rows ==>
                  PairIsPlanned(sys.db.embeddings, other, db.models.nextId,
                                WrittenPlan(db, identity, done, docId, plan[..n], files, other)))
            && (n < |plan| ==> !CorpusIsPlanned(sys.db, db.models.nextId, identity, files))
  {
    hide Run, IsReachable, Inv, CorpusSteps, RowSteps, FindModel, QueuedChunks, PairIsPlanned, IsPlanned, DistinctRefs,
      BackfillDocuments, UpsertPendingRows, Seed;
    var plan := QueuedChunks(files, db.documents.rows[docId].filepath, identity);
    var start, written := Sys(db, Down, torn), plan[..n];
    ReachableIsSound(start);
    QueuedChunksAreDistinct(files, db.documents.rows[docId].filepath, identity);
    PrefixIsDistinct(plan, n);
    RunUntilCrash(db, torn, identity, done, docId, written, files, now);
    var stored := WrittenRows(db, identity, done, docId, written, files, now);
    var corpus := CorpusSteps(db.(models := Insert(db.models, identity)), done, identity, files, now);
    RestartAfterCrash(Sys(stored, Down, torn), db.models.nextId, identity,
                      [Boot(identity)] + corpus + RowSteps(docId, written, now) + [Crash], start, now);
    SeedKeepsRows(stored, now);
    forall other | other in db.documents.rows
      ensures PairIsPlanned(stored.embeddings, other, db.models.nextId,
                            WrittenPlan(db, identity, done, docId, written, files, other))
    {
      WrittenPlans(db, identity, done, docId, written, files, now, other);
    }
    assert WrittenPlan(db, identity, done, docId, written, files, docId) == written;
    if n < |plan| { MissingChunk(stored.embeddings, docId, db.models.nextId, plan, n); }
  }

  lemma FindsRegistered(sys: Sys, modelId: int, identity: EmbeddingIdentity)
    requires IsReachable(sys) && modelId in sys.db.models.rows && sys.db.models.rows[modelId] == identity
    ensures FindModel(sys.db.models, identity) == Some(modelId)
  {
    hide IsReachable;
    ReachableIsSound(sys);
    FindsOwnModel(sys.db, modelId);
  }

  /** Such runs exist from the empty database, whatever the file of the one document holds: its plan for
      the new model stops after any number of rows. */
  lemma PlanCanStayPartial(files: Files, n: nat) returns (sys: Sys)
    requires n <= |QueuedChunks(files, DOC.filepath, NEW_MODEL)|
    ensures IsReachable(sys) && sys.phase == Indexing(2) && sys.db.documents.rows == map[1 := DOC]
    ensures PairIsPlanned(sys.db.embeddings, 1, 2, QueuedChunks(files, DOC.filepath, NEW_MODEL)[..n])
    ensures n < |QueuedChunks(files, DOC.filepath, NEW_MODEL)| ==> !CorpusIsPlanned(sys.db, 2, NEW_MODEL, files)
  {
    hide IsReachable, QueuedChunks, PairIsPlanned, CorpusIsPlanned, Run;
    var stopped := Ingested();
    assert FindModel(stopped.db.models, NEW_MODEL) == None by { assert "old"[0] != "new"[0]; }
    var written := QueuedChunks(files, DOC.filepath, NEW_MODEL)[..n];
    InterruptedPlanStays(stopped.db, false, NEW_MODEL, [], 1, n, files, 0);
    sys := Run(stopped, InterruptedSteps(stopped.db, NEW_MODEL, [], 1, written, files, 0));
    assert WrittenPlan(stopped.db, NEW_MODEL, [], 1, written, files, 1) == written;
  }

  /** In particular a crash right after the filename row of a text file leaves its content unplanned. */
  lemma ContentCanStayUnplanned() returns (sys: Sys)
    ensures IsReachable(sys) && sys.phase == Indexing(2) && sys.db.documents.rows == map[1 := DOC]
    ensures PairIsPlanned(sys.db.embeddings, 1, 2, [NAME])
    ensures !CorpusIsPlanned(sys.db, 2, NEW_MODEL, map[DOC.filepath := LETTER])
  {
    var files: Files := map[DOC.filepath := LETTER];
    LetterHasContent();
    hide IsReachable, PairIsPlanned, CorpusIsPlanned, PlannedChunks;
    sys := PlanCanStayPartial(files, 1);
    var plan := QueuedChunks(files, DOC.filepath, NEW_MODEL);
    assert plan[..1] == [NAME];
  }

  const LETTER: FileBytes := [0x61]

  lemma LetterHasContent()
    ensures |PlannedChunks(LETTER, NEW_MODEL)| > 1 && PlannedChunks(LETTER, NEW_MODEL)[0] == NAME
  {
    hide WellFormed, StructurePlan, ReadPlan, ContentSpans;
    EndOrder.AsciiIsText(LETTER);
    BoundedReadRefinesWholeFile(LETTER, CONTENT_BYTE_BUDGET);
    assert LETTER[..1] == LETTER;
    var text: Str := LETTER;
    assert PlannerContent(LETTER) == Some(text);
    SpansOfText(text, NEW_MODEL);
  }

  lemma SpansOfText(text: Str, model: EmbeddingIdentity)
    requires text != [] && AsUsize(model.chunkSize) > 0
    ensures ContentSpans(text, model) != []
  {
    hide WellFormed, StructurePlan;
    StructureChunksCover(text, AsUsize(model.chunkSize), AsUsize(model.chunkOverlap),
                         BreakWindow(AsUsize(model.chunkSize)));
  }
}
