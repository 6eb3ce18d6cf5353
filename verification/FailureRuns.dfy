/** The two ways in which served rows or queued work are lost happen on runs from the empty database. */
module FailureRuns {
  import opened Prelude
  import opened Types
  import opened Tables
  import opened Ordering
  import opened JobQueue
  import opened StoreSpec
  import opened StoreInvariant
  import opened StoreSteps
  import opened StoreRuns
  import opened StartupRun
  import opened EmbedJob
  import opened EmbedResults
  import opened CrowdedIndex

  // -------------------------------------------------------------------------
  // A torn index build
  // -------------------------------------------------------------------------

  /** A serving process stops, starts with the older model again, stops once more between two statements
      of the index build, and then serves an index without the Embedded row of its model. */
  lemma TornBuildHappens() returns (sys: Sys)
    ensures IsReachable(sys) && sys.phase == Serving(1) && sys.db.vec.Some?
    ensures 4 in sys.db.embeddings.rows && sys.db.embeddings.rows[4].modelId == 1
    ensures sys.db.embeddings.rows[4].state == Embedded && 4 !in sys.db.vec.value.entries
  {
    hide IsReachable, Run, Seed;
    var served := BothEmbedded();
    var stopped := Next(served, Crash);
    ReachableNext(served, Crash);
    ReachableIsSound(stopped);
    FindsOwnModel(stopped.db, 1);
    var booted := Next(stopped, Boot(OLD_MODEL));
    ReachableNext(stopped, Boot(OLD_MODEL));
    var seeded := Next(booted, FinishSeeding(0));
    ReachableNext(booted, FinishSeeding(0));
    SeedKeepsRows(booted.db, 0);
    ReachableIsSound(seeded);
    hide Inv, FindModel;
    TornBuildIsNotRepaired(seeded.db, 1, 4);
    var again := TORN_BUILD + [Crash, Boot(OLD_MODEL), FinishSeeding(0), IndexStatement];
    RunIsReachable(seeded, again);
    sys := Run(seeded, again);
  }

  // -------------------------------------------------------------------------
  // A stale mark during a job
  // -------------------------------------------------------------------------

  lemma OnePairIsSorted(pair: Key)
    ensures Sorted({pair}) == [pair]
  {
    assert Least({pair}) == pair;
    assert {pair} - {pair} == {};
  }

  const EMBED: JobPayload := EmbedDocument(1, 1)

  lemma FirstIngestQueues(db: Db)
    requires db.documents == Table(map[], 1) && db.embeddings == Table(map[], 1) && db.jobs == Table(map[], 1)
    requires db.models == Table(map[1 := OLD_MODEL], 2) && db.vec == Some(VecTable(1, map[]))
    ensures ApplyTx(db, UpsertTx(DOC, 1, [NAME], 0)).jobs == Table(map[1 := JobRow(EMBED, None, 0)], 2)
  {
    FirstIngest(db);
    var rows := ApplyTx(db, UpsertTx(DOC, 1, [NAME], 0)).embeddings;
    assert FindByPath(db.documents, DOC.filepath).None?;
    var pair := Key(1, 1, 0);
    assert RecoverablePairs(rows) == {pair} by {
      assert rows.rows[1] == PendingRow(1, 1, NAME, 0);
      assert pair in RecoverablePairs(rows);
    }
    OnePairIsSorted(pair);
    assert [pair][..0] == [];
    hide Sorted, RecoverablePairs, FindByPath, UpsertPendingRows, DeletePairRows;
    assert EnqueuePairs(db.jobs, [pair], 0) == Enqueue(db.jobs, EMBED, 0);
  }

  lemma OnlyJobIsClaimed(jobs: Jobs)
    requires jobs == Table(map[1 := JobRow(EMBED, None, 0)], 2)
    ensures Claim(jobs, 0) == Table(map[1 := JobRow(EMBED, Some(0), 0)], 2)
  {
    assert 1 in jobs.rows && IsClaimable(jobs.rows[1], 0);
  }

  /** The job of the one document is claimed, its rows are replaced, the document is marked stale, and only
      then the job is completed: its row needs embedding and no job is queued for it. */
  lemma LostWorkHappens() returns (sys: Sys)
    ensures IsReachable(sys) && sys.phase == Serving(1) && !NoLostWork(sys.db)
  {
    hide IsReachable, ApplyTx;
    var first := FirstStart();
    var upsert, claim, replace := UpsertTx(DOC, 1, [NAME], 0), QueueTx(ClaimOp(0)),
                                  ReplaceTx(1, 1, [EmbeddedChunk(NAME, NEAR)], 0);
    FirstIngest(first.db);
    FirstIngestQueues(first.db);
    var ingested := Next(first, Serve(upsert));
    ReachableNext(first, Serve(upsert));
    ClaimTx(ingested.db);
    OnlyJobIsClaimed(ingested.db.jobs);
    var claimed := Next(ingested, Serve(claim));
    ReachableNext(ingested, Serve(claim));
    ReplaceOne(claimed.db, 1, NEAR);
    var replaced := Next(claimed, Serve(replace));
    ReachableNext(claimed, Serve(replace));
    var marked := Next(replaced, Serve(MarkStaleTx([1], 0)));
    ReachableNext(replaced, Serve(MarkStaleTx([1], 0)));
    sys := Next(marked, Serve(CompleteTx(1)));
    ReachableNext(marked, Serve(CompleteTx(1)));
    ReachableIsSound(replaced);
    hide Inv, PhaseOk;
    assert replaced.db.embeddings.rows[2] == EmbeddedRow(1, 1, EmbeddedChunk(NAME, NEAR), 0);
    StaleMarkBeforeCompleteLosesWork(replaced.db, 1, 1, 1, 2, 0, 0);
    TwoTxs(replaced.db, MarkStaleTx([1], 0), CompleteTx(1));
  }

  lemma ClaimTx(db: Db)
    ensures ApplyTx(db, QueueTx(ClaimOp(0))) == db.(jobs := Claim(db.jobs, 0))
  {
  }
}
