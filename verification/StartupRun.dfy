/** Startup reconciliation is one run of the transition system, so its invariants hold of it and a
    crash between any two of its statements is covered. */
module StartupRun {
  import opened Prelude
  import opened Types
  import opened Tables
  import opened Ordering
  import opened JobQueue
  import opened StoreSpec
  import opened StoreRuns
  import opened Startup

  lemma {:induction false} RunAppend(sys: Sys, first: seq<Step>, second: seq<Step>)
    ensures Run(sys, first + second) == Run(Run(sys, first), second)
    decreases |first|
  {
    hide Next;
    if first == [] {
      assert first + second == second;
    } else {
      assert (first + second)[1..] == first[1..] + second;
      RunAppend(Next(sys, first[0]), first[1..], second);
    }
  }

  lemma RunLast(sys: Sys, init: seq<Step>, last: Step)
    ensures Run(sys, init + [last]) == Next(Run(sys, init), last)
  {
    RunAppend(sys, init, [last]);
    RunOne(Run(sys, init), last, []);
    hide Next;
    assert [last] + [] == [last];
  }

  lemma RunIsReachable(sys: Sys, steps: seq<Step>)
    requires IsReachable(sys)
    ensures IsReachable(Run(sys, steps))
  {
    var before :| sys == Run(INITIAL, before);
    RunAppend(INITIAL, before, steps);
  }

  lemma ReachableNext(sys: Sys, step: Step)
    requires IsReachable(sys)
    ensures IsReachable(Next(sys, step))
  {
    var steps :| sys == Run(INITIAL, steps);
    RunLast(INITIAL, steps, step);
  }

  function RowSteps(docId: int, chunks: seq<ChunkRef>, now: int): seq<Step> {
    seq(|chunks|, k requires 0 <= k < |chunks| => BackfillRow(docId, chunks[k], now))
  }

  lemma {:induction false} RowStepsUpsert(sys: Sys, docId: int, chunks: seq<ChunkRef>, now: int)
    requires sys.phase.Backfilling? && docId in sys.db.documents.rows
    ensures Run(sys, RowSteps(docId, chunks, now))
         == sys.(db := sys.db.(embeddings :=
                                 UpsertPendingRows(sys.db.embeddings, docId, sys.phase.modelId, chunks, now)))
  {
    hide UpsertPendingRow;
    if chunks == [] {
      assert RowSteps(docId, chunks, now) == [];
    } else {
      var init, last := chunks[..|chunks| - 1], chunks[|chunks| - 1];
      RowStepsUpsert(sys, docId, init, now);
      assert RowSteps(docId, chunks, now) == RowSteps(docId, init, now) + [BackfillRow(docId, last, now)];
      RunLast(sys, RowSteps(docId, init, now), BackfillRow(docId, last, now));
    }
  }

  function DocumentSteps(docId: int, chunks: seq<ChunkRef>, now: int): seq<Step> {
    RowSteps(docId, chunks, now) + [BackfillClean(docId)]
  }

  lemma DocumentStepsQueue(sys: Sys, docId: int, chunks: seq<ChunkRef>, now: int)
    requires sys.phase.Backfilling? && docId in sys.db.documents.rows
    ensures Run(sys, DocumentSteps(docId, chunks, now))
         == sys.(db := QueuePending(sys.db, docId, sys.phase.modelId, chunks, now))
  {
    hide UpsertPendingRows, Run;
    RowStepsUpsert(sys, docId, chunks, now);
    RunLast(sys, RowSteps(docId, chunks, now), BackfillClean(docId));
  }

  function CorpusSteps(db: Db, docIds: seq<int>, model: EmbeddingIdentity, files: Files, now: int): seq<Step>
    requires AllExist(db, docIds)
  {
    if docIds == [] then []
    else
      var last := docIds[|docIds| - 1];
      CorpusSteps(db, docIds[..|docIds| - 1], model, files, now)
      + DocumentSteps(last, QueuedChunks(files, db.documents.rows[last].filepath, model), now)
  }

  lemma {:induction false} CorpusStepsBackfill(sys: Sys, docIds: seq<int>, model: EmbeddingIdentity, files: Files,
                                               now: int)
    requires sys.phase.Backfilling? && AllExist(sys.db, docIds)
    ensures Run(sys, CorpusSteps(sys.db, docIds, model, files, now))
         == sys.(db := BackfillDocuments(sys.db, docIds, sys.phase.modelId, model, files, now))
  {
    hide QueuedChunks, DocumentSteps, QueuePending;
    if docIds != [] {
      var init, last := docIds[..|docIds| - 1], docIds[|docIds| - 1];
      var chunks := QueuedChunks(files, sys.db.documents.rows[last].filepath, model);
      CorpusStepsBackfill(sys, init, model, files, now);
      var first := CorpusSteps(sys.db, init, model, files, now);
      var mid := Run(sys, first);
      RunAppend(sys, first, DocumentSteps(last, chunks, now));
      DocumentStepsQueue(mid, last, chunks, now);
      hide Run;
    }
  }

  function EnqueueSteps(pairs: seq<Key>, now: int): seq<Step> {
    seq(|pairs|, k requires 0 <= k < |pairs| => StartupEnqueue(PairPayload(pairs[k]), now))
  }

  lemma {:induction false} EnqueueStepsSeed(sys: Sys, pairs: seq<Key>, now: int)
    requires sys.phase.Backfilling?
    ensures Run(sys, EnqueueSteps(pairs, now)) == sys.(db := sys.db.(jobs := EnqueuePairs(sys.db.jobs, pairs, now)))
  {
    hide Enqueue;
    if pairs == [] {
      assert EnqueueSteps(pairs, now) == [];
    } else {
      var init, last := pairs[..|pairs| - 1], pairs[|pairs| - 1];
      EnqueueStepsSeed(sys, init, now);
      assert EnqueueSteps(pairs, now) == EnqueueSteps(init, now) + [StartupEnqueue(PairPayload(last), now)];
      RunLast(sys, EnqueueSteps(init, now), StartupEnqueue(PairPayload(last), now));
    }
  }

  function NewModelSteps(db: Db, modelId: int, identity: EmbeddingIdentity, listing: seq<int>, files: Files, now: int)
    : seq<Step>
    requires AllExist(db, listing)
  {
    var backfilled := BackfillDocuments(db, listing, modelId, identity, files, now);
    CorpusSteps(db, listing, identity, files, now)
    + EnqueueSteps(Sorted(RecoverablePairs(backfilled.embeddings)), now)
    + [FinishBackfill]
  }

  lemma NewModelStepsBackfill(sys: Sys, identity: EmbeddingIdentity, listing: seq<int>, files: Files, now: int)
    requires sys.phase.Backfilling? && AllExist(sys.db, listing)
    ensures Run(sys, NewModelSteps(sys.db, sys.phase.modelId, identity, listing, files, now))
         == Sys(Seed(BackfillDocuments(sys.db, listing, sys.phase.modelId, identity, files, now), now),
                Seeding(sys.phase.modelId), sys.torn)
  {
    var backfilled := BackfillDocuments(sys.db, listing, sys.phase.modelId, identity, files, now);
    hide BackfillDocuments, Sorted, RecoverablePairs, EnqueuePairs, Run, CorpusSteps, EnqueueSteps;
    var corpus := CorpusSteps(sys.db, listing, identity, files, now);
    var seeding := EnqueueSteps(Sorted(RecoverablePairs(backfilled.embeddings)), now);
    CorpusStepsBackfill(sys, listing, identity, files, now);
    RunAppend(sys, corpus, seeding);
    EnqueueStepsSeed(sys.(db := backfilled), Sorted(RecoverablePairs(backfilled.embeddings)), now);
    RunLast(sys, corpus + seeding, FinishBackfill);
  }

  /** The statements of `reconcile_embedding_startup` as steps. */
  function StartupSteps(db: Db, identity: EmbeddingIdentity, listing: seq<int>, files: Files, now: int): seq<Step>
    requires AllExist(db, listing)
  {
    match FindModel(db.models, identity)
    case Some(_) => [Boot(identity)] + [FinishSeeding(now)]
    case None =>
      var registered := db.(models := Insert(db.models, identity));
      [Boot(identity)]
      + NewModelSteps(registered, db.models.nextId, identity, listing, files, now)
      + [FinishSeeding(now)]
  }

  /** Reconciliation is the run of its statements from a stopped process: it ends ready for the index
      build, over exactly the reconciled store. */
  lemma StartupIsARun(db: Db, torn: bool, identity: EmbeddingIdentity, listing: seq<int>, files: Files, now: int)
    requires AllExist(db, listing) && IsConfigured(identity)
    ensures var (after, modelId) := Reconciled(db, identity, listing, files, now);
            Run(Sys(db, Down, torn), StartupSteps(db, identity, listing, files, now))
            == Sys(after, Indexing(modelId), torn)
  {
    var sys := Sys(db, Down, torn);
    var booted := Next(sys, Boot(identity));
    hide BackfillDocuments, SeedJobs, NewModelSteps;
    match FindModel(db.models, identity)
    case Some(_) =>
      RunOne(sys, Boot(identity), [FinishSeeding(now)]);
      RunOne(booted, FinishSeeding(now), []);
      assert [FinishSeeding(now)] + [] == [FinishSeeding(now)];
    case None =>
      var registered := db.(models := Insert(db.models, identity));
      var steps := NewModelSteps(registered, db.models.nextId, identity, listing, files, now);
      RunOne(sys, Boot(identity), steps + [FinishSeeding(now)]);
      assert [Boot(identity)] + steps + [FinishSeeding(now)] == [Boot(identity)] + (steps + [FinishSeeding(now)]);
      assert AllExist(registered, listing);
      NewModelStepsBackfill(booted, identity, listing, files, now);
      RunLast(booted, steps, FinishSeeding(now));
  }

  /** So the reconciled store of a reachable database is reachable too. */
  lemma ReconciledIsReachable(db: Db, torn: bool, identity: EmbeddingIdentity, listing: seq<int>, files: Files,
                              now: int)
    requires IsReachable(Sys(db, Down, torn)) && AllExist(db, listing) && IsConfigured(identity)
    ensures var (after, modelId) := Reconciled(db, identity, listing, files, now);
            IsReachable(Sys(after, Indexing(modelId), torn))
  {
    var steps :| Sys(db, Down, torn) == Run(INITIAL, steps);
    hide Run, Reconciled, StartupSteps;
    StartupIsARun(db, torn, identity, listing, files, now);
    RunAppend(INITIAL, steps, StartupSteps(db, identity, listing, files, now));
  }
}
