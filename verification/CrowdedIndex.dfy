/** A reachable store in which a row of another model hides the only row of the served one. */
module CrowdedIndex {
  import opened Prelude
  import opened Utf8
  import opened Types
  import opened Tables
  import opened Ordering
  import opened JobQueue
  import opened StoreSpec
  import opened StoreInvariant
  import opened StoreRuns
  import opened StartupRun
  import opened VectorSearch
  import opened SearchExactness

  // -------------------------------------------------------------------------
  // One document, two models of one dimension
  // -------------------------------------------------------------------------

  const OLD_MODEL: EmbeddingIdentity := EmbeddingIdentity("old", 1, 1000, 100)
  const NEW_MODEL: EmbeddingIdentity := EmbeddingIdentity("new", 1, 1000, 100)
  const NAME: ChunkRef := ChunkRef(Filename, 0, 0)
  const DOC: Document := Document([0x61], FileHash([]), DocumentDetails("", 0, 0, "{}"), 0)
  const NEAR: Blob := [0, 0, 0, 0]
  const FAR: Blob := [0, 0, 0x80, 0x3F]

  /** Everything but the queue. */
  ghost predicate Holds(sys: Sys, documents: map<int, Document>, models: map<int, EmbeddingIdentity>,
                        rows: map<int, EmbeddingRow>, nextRow: int, entries: map<int, Blob>, active: int)
  {
    && IsReachable(sys) && !sys.torn
    && sys.db.documents == Table(documents, |documents| + 1) && sys.db.models == Table(models, |models| + 1)
    && sys.db.embeddings == Table(rows, nextRow)
    && sys.db.vec == Some(VecTable(1, entries)) && sys.db.search == Some(SearchState(active, 1))
  }

  lemma FirstStart() returns (sys: Sys)
    ensures Holds(sys, map[], map[1 := OLD_MODEL], map[], 1, map[], 1) && sys.phase == Serving(1)
    ensures sys.db.jobs == Table(map[], 1)
  {
    hide IsReachable, Run;
    InitialIsReachable();
    var booted := Next(INITIAL, Boot(OLD_MODEL));
    ReachableNext(INITIAL, Boot(OLD_MODEL));
    var backfilled := Next(booted, FinishBackfill);
    ReachableNext(booted, FinishBackfill);
    var seeded := Next(backfilled, FinishSeeding(0));
    ReachableNext(backfilled, FinishSeeding(0));
    sys := IndexBuilt(seeded, 1, OLD_MODEL);
  }

  lemma InitialIsReachable()
    ensures IsReachable(INITIAL)
  {
    assert INITIAL == Run(INITIAL, []);
  }

  lemma IndexBuilt(sys: Sys, modelId: int, model: EmbeddingIdentity) returns (built: Sys)
    requires IsReachable(sys) && sys.phase == Indexing(modelId) && !sys.torn
    requires modelId in sys.db.models.rows && sys.db.models.rows[modelId] == model && model.dimensions == 1
    requires RequiresRebuild(sys.db, modelId, 1)
    requires ModelIsPending(sys.db.embeddings, modelId)
    ensures IsReachable(built) && built.phase == Serving(modelId) && !built.torn
    ensures built.db == sys.db.(vec := Some(VecTable(1, map[])), search := Some(SearchState(modelId, 1)))
  {
    hide IsReachable;
    var dropped := Next(sys, IndexStatement);
    ReachableNext(sys, IndexStatement);
    var created := Next(dropped, IndexStatement);
    ReachableNext(dropped, IndexStatement);
    var stored := Next(created, IndexStatement);
    ReachableNext(created, IndexStatement);
    built := Next(stored, IndexStatement);
    ReachableNext(stored, IndexStatement);
    NoIds(ModelVectors(sys.db.embeddings, modelId).Keys);
  }

  lemma Ingested() returns (sys: Sys)
    ensures Holds(sys, map[1 := DOC], map[1 := OLD_MODEL], map[1 := PendingRow(1, 1, NAME, 0)], 2, map[], 1)
    ensures sys.phase == Down
  {
    hide IsReachable, ApplyTx;
    var first := FirstStart();
    var upsert := UpsertTx(DOC, 1, [NAME], 0);
    FirstIngest(first.db);
    var served := Next(first, Serve(upsert));
    ReachableNext(first, Serve(upsert));
    sys := Next(served, Crash);
    ReachableNext(served, Crash);
  }

  lemma SecondModel() returns (sys: Sys)
    ensures Holds(sys, map[1 := DOC], map[1 := OLD_MODEL, 2 := NEW_MODEL],
                  map[1 := PendingRow(1, 1, NAME, 0), 2 := PendingRow(1, 2, NAME, 0)], 3, map[], 1)
    ensures sys.phase == Backfilling(2)
  {
    hide IsReachable, ApplyTx;
    var stopped := Ingested();
    assert OLD_MODEL != NEW_MODEL by { assert "old"[0] != "new"[0]; }
    assert FindModel(stopped.db.models, NEW_MODEL) == None;
    var booted := Next(stopped, Boot(NEW_MODEL));
    ReachableNext(stopped, Boot(NEW_MODEL));
    sys := Next(booted, BackfillRow(1, NAME, 0));
    ReachableNext(booted, BackfillRow(1, NAME, 0));
    hide FindModel;
    assert sys.db.embeddings == UpsertPendingRow(booted.db.embeddings, 1, 2, NAME, 0);
  }

  lemma FirstIngest(db: Db)
    requires db.documents == Table(map[], 1) && db.embeddings == Table(map[], 1)
    requires db.models == Table(map[1 := OLD_MODEL], 2) && db.vec == Some(VecTable(1, map[]))
    ensures var after := ApplyTx(db, UpsertTx(DOC, 1, [NAME], 0));
            && after.documents == Table(map[1 := DOC], 2) && after.models == db.models
            && after.embeddings == Table(map[1 := PendingRow(1, 1, NAME, 0)], 2)
            && after.vec == db.vec && after.search == db.search
  {
    hide SeedJobs;
    assert FindByPath(db.documents, DOC.filepath).None?;
    assert [NAME][..0] == [];
    assert UpsertPendingRows(DeletePairRows(db.embeddings, 1, 1), 1, 1, [NAME], 0)
        == Table(map[1 := PendingRow(1, 1, NAME, 0)], 2);
  }

  lemma SecondStart() returns (sys: Sys)
    ensures Holds(sys, map[1 := DOC], map[1 := OLD_MODEL, 2 := NEW_MODEL],
                  map[1 := PendingRow(1, 1, NAME, 0), 2 := PendingRow(1, 2, NAME, 0)], 3, map[], 2)
    ensures sys.phase == Serving(2)
  {
    hide IsReachable, SeedJobs;
    var planned := SecondModel();
    var backfilled := Next(planned, FinishBackfill);
    ReachableNext(planned, FinishBackfill);
    var seeded := Next(backfilled, FinishSeeding(0));
    ReachableNext(backfilled, FinishSeeding(0));
    sys := IndexBuilt(seeded, 2, NEW_MODEL);
  }

  // -------------------------------------------------------------------------
  // Embedding one chunk for each model
  // -------------------------------------------------------------------------

  lemma ReplaceOne(db: Db, modelId: int, blob: Blob)
    requires IdsBelow(db.embeddings) && 1 in db.documents.rows && modelId in db.models.rows
    requires db.models.rows[modelId].dimensions == 1 && |blob| == F32_BYTES
    requires db.vec.Some? && db.vec.value.dimensions == 1
    ensures var after := ApplyTx(db, ReplaceTx(1, modelId, [EmbeddedChunk(NAME, blob)], 0));
            var kept := DeletePairRows(db.embeddings, 1, modelId);
            && after.embeddings == Insert(kept, EmbeddedRow(1, modelId, EmbeddedChunk(NAME, blob), 0))
            && after.vec == Some(VecTable(1, (db.vec.value.entries - PairRowIds(db.embeddings, 1, modelId))
                                             + map[db.embeddings.nextId := blob]))
            && after.documents == db.documents && after.models == db.models && after.search == db.search
            && after.jobs == db.jobs
  {
    var chunks := [EmbeddedChunk(NAME, blob)];
    var kept := DeletePairRows(db.embeddings, 1, modelId);
    assert chunks[..0] == [];
    var rows := ReplacedRows(db, 1, modelId, chunks, 0);
    assert InsertEmbeddedRows(kept, 1, modelId, chunks[..0], 0) == kept;
    assert rows == Insert(kept, EmbeddedRow(1, modelId, chunks[0], 0));
    hide InsertEmbeddedRows;
    var vectors := PairVectors(rows, 1, modelId);
    assert vectors == map[db.embeddings.nextId := blob];
  }

  lemma BothEmbedded() returns (sys: Sys)
    ensures Holds(sys, map[1 := DOC], map[1 := OLD_MODEL, 2 := NEW_MODEL],
                  map[3 := EmbeddedRow(1, 2, EmbeddedChunk(NAME, FAR), 0),
                      4 := EmbeddedRow(1, 1, EmbeddedChunk(NAME, NEAR), 0)],
                  5, map[3 := FAR, 4 := NEAR], 2)
    ensures sys.phase == Serving(2)
  {
    hide IsReachable, ApplyTx, DeletePairRows, PairRowIds;
    var started := SecondStart();
    var own := ReplaceTx(1, 2, [EmbeddedChunk(NAME, FAR)], 0);
    var embedded := Next(started, Serve(own));
    ReplaceOne(started.db, 2, FAR);
    ReachableNext(started, Serve(own));
    FirstEmbedded(started.db.embeddings, started.db.vec.value.entries);
    var foreign := ReplaceTx(1, 1, [EmbeddedChunk(NAME, NEAR)], 0);
    sys := Next(embedded, Serve(foreign));
    ReplaceOne(embedded.db, 1, NEAR);
    ReachableNext(embedded, Serve(foreign));
    SecondEmbedded(embedded.db.embeddings, embedded.db.vec.value.entries);
  }

  lemma FirstEmbedded(rows: Rows, entries: map<int, Blob>)
    requires rows == Table(map[1 := PendingRow(1, 1, NAME, 0), 2 := PendingRow(1, 2, NAME, 0)], 3) && entries == map[]
    ensures Insert(DeletePairRows(rows, 1, 2), EmbeddedRow(1, 2, EmbeddedChunk(NAME, FAR), 0))
         == Table(map[1 := PendingRow(1, 1, NAME, 0), 3 := EmbeddedRow(1, 2, EmbeddedChunk(NAME, FAR), 0)], 4)
    ensures (entries - PairRowIds(rows, 1, 2)) + map[3 := FAR] == map[3 := FAR]
  {
    SameNatMaps((entries - PairRowIds(rows, 1, 2)) + map[3 := FAR], map[3 := FAR]);
    SameNatMaps(DeletePairRows(rows, 1, 2).rows, map[1 := PendingRow(1, 1, NAME, 0)]);
  }

  lemma SecondEmbedded(rows: Rows, entries: map<int, Blob>)
    requires rows == Table(map[1 := PendingRow(1, 1, NAME, 0), 3 := EmbeddedRow(1, 2, EmbeddedChunk(NAME, FAR), 0)], 4)
    requires entries == map[3 := FAR]
    ensures Insert(DeletePairRows(rows, 1, 1), EmbeddedRow(1, 1, EmbeddedChunk(NAME, NEAR), 0))
         == Table(map[3 := EmbeddedRow(1, 2, EmbeddedChunk(NAME, FAR), 0),
                      4 := EmbeddedRow(1, 1, EmbeddedChunk(NAME, NEAR), 0)], 5)
    ensures (entries - PairRowIds(rows, 1, 1)) + map[4 := NEAR] == map[3 := FAR, 4 := NEAR]
  {
    SameNatMaps((entries - PairRowIds(rows, 1, 1)) + map[4 := NEAR], map[3 := FAR, 4 := NEAR]);
    SameNatMaps(DeletePairRows(rows, 1, 1).rows, map[3 := EmbeddedRow(1, 2, EmbeddedChunk(NAME, FAR), 0)]);
  }

  // -------------------------------------------------------------------------
  // The served model's only row is not found
  // -------------------------------------------------------------------------

  /** The served model has one Embedded row, search accepts the model, and a query with limit 1 finds
      nothing, whichever correct answer the index gives. */
  ghost predicate HidesOnlyRow(sys: Sys, metric: Metric) {
    && sys.phase.Serving? && !sys.torn
    && var db, modelId := sys.db, sys.phase.modelId;
    && db.vec.Some? && modelId in db.models.rows
    && ActiveModelError(db, modelId, db.models.rows[modelId].dimensions).None?
    && (exists id :: id in db.embeddings.rows && IsWanted(db.embeddings.rows[id], modelId))
    && forall nearest :: IsNearest(db.vec.value.entries, metric, 1, nearest) ==> Wanted(db, modelId, nearest) == {}
  }

  lemma NearWins(metric: Metric, nearest: set<int>)
    requires metric(NEAR) < metric(FAR) && IsNearest(map[3 := FAR, 4 := NEAR], metric, 1, nearest)
    ensures 3 !in nearest
  {
    var entries := map[3 := FAR, 4 := NEAR];
    assert entries[3] == FAR && entries[4] == NEAR;
    assert 4 in entries.Keys - nearest <==> 4 !in nearest;
    if 3 in nearest {
      assert 4 in nearest;
      SubsetCount({3, 4}, nearest);
    }
  }

  /** For every query nearer to one vector than to another, a reachable store hides the served model's
      only row behind a row of another model. */
  lemma ForeignRowHidesOwn(metric: Metric) returns (sys: Sys)
    requires metric(NEAR) < metric(FAR)
    ensures IsReachable(sys) && HidesOnlyRow(sys, metric)
    ensures !SearchIsAlwaysExact(sys.db, sys.phase.modelId, metric, 1)
  {
    sys := BothEmbedded();
    hide IsReachable;
    var db := sys.db;
    var row := db.embeddings.rows[3];
    assert IsWanted(row, 2);
    forall nearest | IsNearest(db.vec.value.entries, metric, 1, nearest)
      ensures Wanted(db, 2, nearest) == {}
    {
      NearWins(metric, nearest);
      NoIds(Wanted(db, 2, nearest));
    }
    var nearest := {4};
    assert IsNearest(db.vec.value.entries, metric, 1, nearest);
    assert 3 in ModelEntries(db, 2);
    assert !IsNearest(ModelEntries(db, 2), metric, 1, {});
  }
}
