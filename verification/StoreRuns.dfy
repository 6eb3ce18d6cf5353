/** Whole runs of the server: startup statements that commit one by one, crashes anywhere, and any
    interleaving of transactions while serving. */
module StoreRuns {
  import opened Prelude
  import opened Types
  import opened Tables
  import opened Ordering
  import opened JobQueue
  import opened StoreSpec
  import opened StoreInvariant
  import opened StoreSteps

  /** How far the process got. Startup is single-threaded; workers and handlers run while serving. */
  datatype Phase =
    | Down
    | Backfilling(modelId: int)
    | Seeding(modelId: int)
    | Indexing(modelId: int)
    | TableDropped(modelId: int)
    | TableCreated(modelId: int)
    | StateStored(modelId: int)
    | Serving(modelId: int)

  /** `torn` remembers a crash in the middle of an index build. */
  datatype Sys = Sys(db: Db, phase: Phase, torn: bool)

  const INITIAL: Sys := Sys(EMPTY_DB, Down, false)

  datatype Step =
    | Boot(identity: EmbeddingIdentity)
    | BackfillRow(docId: int, chunk: ChunkRef, now: int)
    | BackfillClean(docId: int)
    | FinishBackfill
    | StartupEnqueue(payload: JobPayload, now: int)
    | FinishSeeding(now: int)
    | IndexStatement
    | Serve(tx: Tx)
    | Crash

  /** The configuration check on a model identity. */
  predicate IsConfigured(identity: EmbeddingIdentity) { identity.dimensions > 0 }

  function BootModel(sys: Sys, identity: EmbeddingIdentity): Sys {
    match FindModel(sys.db.models, identity)
    case Some(id) => sys.(phase := Seeding(id))
    case None =>
      sys.(db := sys.db.(models := Insert(sys.db.models, identity)), phase := Backfilling(sys.db.models.nextId))
  }

  /** The next statement of `ensure_active_search_model`. */
  function IndexNext(sys: Sys): Sys {
    match sys.phase
    case Indexing(id) =>
      if id !in sys.db.models.rows then sys
      else if !RequiresRebuild(sys.db, id, sys.db.models.rows[id].dimensions) then sys.(phase := Serving(id))
      else sys.(db := DropVecTable(sys.db), phase := TableDropped(id))
    case TableDropped(id) =>
      if id !in sys.db.models.rows then sys
      else sys.(db := CreateVecTable(sys.db, sys.db.models.rows[id].dimensions), phase := TableCreated(id))
    case TableCreated(id) =>
      if id !in sys.db.models.rows then sys
      else sys.(db := StoreSearchState(sys.db, id, sys.db.models.rows[id].dimensions), phase := StateStored(id))
    case StateStored(id) =>
      if id !in sys.db.models.rows || !BackfillChecks(sys.db, id, sys.db.models.rows[id].dimensions) then sys
      else sys.(db := BackfillVec(sys.db, id), phase := Serving(id), torn := false)
    case _ => sys
  }

  /** One step; a step that the phase does not allow changes nothing. */
  function Next(sys: Sys, step: Step): Sys {
    match step
    case Boot(identity) =>
      if sys.phase == Down && IsConfigured(identity) then BootModel(sys, identity) else sys
    case BackfillRow(docId, chunk, now) =>
      if sys.phase.Backfilling? && docId in sys.db.documents.rows then
        sys.(db := sys.db.(embeddings := UpsertPendingRow(sys.db.embeddings, docId, sys.phase.modelId, chunk, now)))
      else sys
    case BackfillClean(docId) =>
      if sys.phase.Backfilling? then
        sys.(db := sys.db.(vec := DeleteVec(sys.db.vec,
                                            NonEmbeddedPairRowIds(sys.db.embeddings, docId, sys.phase.modelId))))
      else sys
    case FinishBackfill =>
      if sys.phase.Backfilling? then sys.(phase := Seeding(sys.phase.modelId)) else sys
    case StartupEnqueue(payload, now) =>
      if sys.phase.Backfilling? || sys.phase.Seeding? then
        sys.(db := sys.db.(jobs := Enqueue(sys.db.jobs, payload, now)))
      else sys
    case FinishSeeding(now) =>
      if sys.phase.Seeding? then sys.(db := Seed(sys.db, now), phase := Indexing(sys.phase.modelId)) else sys
    case IndexStatement => IndexNext(sys)
    case Serve(tx) =>
      if sys.phase.Serving? then sys.(db := ApplyTx(sys.db, tx)) else sys
    case Crash =>
      sys.(phase := Down, torn := sys.torn || sys.phase.TableCreated? || sys.phase.StateStored?)
  }

  function Run(sys: Sys, steps: seq<Step>): Sys
    decreases |steps|
  {
    if steps == [] then sys else Run(Next(sys, steps[0]), steps[1..])
  }

  // -------------------------------------------------------------------------
  // The invariant of runs
  // -------------------------------------------------------------------------

  ghost predicate ModelIsPending(rows: Rows, modelId: int) {
    forall id :: id in rows.rows && rows.rows[id].modelId == modelId ==> rows.rows[id].state == Pending
  }

  /** The table was created for the dimension that the search state names. */
  ghost predicate TableMatchesState(db: Db) {
    db.vec.Some? && db.search.Some? ==> db.vec.value.dimensions == db.search.value.dimensions
  }

  ghost predicate PhaseOk(sys: Sys) {
    && (!sys.phase.Down? ==> sys.phase.modelId in sys.db.models.rows)
    && (sys.phase.Backfilling? ==> ModelIsPending(sys.db.embeddings, sys.phase.modelId))
    && (sys.phase.TableCreated? || sys.phase.StateStored? ==>
          sys.db.vec.Some? && sys.db.vec.value.dimensions == sys.db.models.rows[sys.phase.modelId].dimensions)
    && (sys.phase.StateStored? || sys.phase.Serving? ==>
          sys.db.vec.Some?
          && sys.db.search == Some(SearchState(sys.phase.modelId, sys.db.models.rows[sys.phase.modelId].dimensions)))
    && (!sys.torn && !sys.phase.TableCreated? ==> TableMatchesState(sys.db))
    && (!sys.torn && !sys.phase.TableCreated? && !sys.phase.StateStored? ==> IndexComplete(sys.db))
  }

  ghost predicate SysInv(sys: Sys) { Inv(sys.db) && PhaseOk(sys) }

  lemma BootKeeps(sys: Sys, identity: EmbeddingIdentity)
    requires SysInv(sys) && sys.phase == Down && IsConfigured(identity)
    ensures SysInv(BootModel(sys, identity))
  {
    hide RowsOk, JobsOk, PathsUnique, VecSound;
    if FindModel(sys.db.models, identity).None? {
      var after := BootModel(sys, identity).db;
      forall id | id in after.embeddings.rows
        ensures RowIsSound(after, after.embeddings.rows[id])
      {
        assert RowIsSound(sys.db, sys.db.embeddings.rows[id]);
      }
    }
  }

  lemma BackfillRowKeeps(sys: Sys, docId: int, chunk: ChunkRef, now: int)
    requires SysInv(sys) && sys.phase.Backfilling? && docId in sys.db.documents.rows
    ensures SysInv(Next(sys, BackfillRow(docId, chunk, now)))
  {
    UpsertPendingRowEffect(sys.db.embeddings, docId, sys.phase.modelId, chunk, now);
    hide RowsOk, JobsOk, PathsUnique, ModelsOk, UpsertPendingRow;
  }

  lemma BackfillCleanKeeps(sys: Sys, docId: int)
    requires SysInv(sys) && sys.phase.Backfilling?
    ensures SysInv(Next(sys, BackfillClean(docId)))
  {
    hide RowsOk, JobsOk, PathsUnique, ModelsOk;
  }

  /** In reachable databases the dimension check of the backfill cannot fail. */
  lemma BackfillCheckHolds(db: Db, modelId: int)
    requires Inv(db) && modelId in db.models.rows
    ensures BackfillChecks(db, modelId, db.models.rows[modelId].dimensions)
  {
    forall id | id in db.embeddings.rows && db.embeddings.rows[id].modelId == modelId
                && IsVectorRow(db.embeddings.rows[id])
      ensures |db.embeddings.rows[id].embedding.value| == F32_BYTES * db.models.rows[modelId].dimensions
    {
      assert RowIsSound(db, db.embeddings.rows[id]);
    }
  }

  lemma IndexNextKeeps(sys: Sys)
    requires SysInv(sys)
    ensures SysInv(IndexNext(sys))
  {
    hide RowsOk, JobsOk, PathsUnique, ModelsOk;
    if sys.phase.StateStored? {
      BackfillCheckHolds(sys.db, sys.phase.modelId);
      hide BackfillChecks;
      var after := IndexNext(sys).db;
      forall id | id in after.embeddings.rows
                  && after.embeddings.rows[id].modelId == sys.phase.modelId
                  && after.embeddings.rows[id].state == Embedded
        ensures id in after.vec.value.entries
      {
        assert RowIsSound(sys.db, sys.db.embeddings.rows[id]);
      }
    }
  }

  lemma ServeKeeps(sys: Sys, tx: Tx)
    requires SysInv(sys) && sys.phase.Serving?
    ensures SysInv(Next(sys, Serve(tx)))
  {
    TxKeepsInv(sys.db, tx);
    TxKeepsConfiguration(sys.db, tx);
    hide Inv, IndexComplete, ApplyTx;
  }

  lemma TxKeepsConfiguration(db: Db, tx: Tx)
    ensures var after := ApplyTx(db, tx);
            && after.models == db.models && after.search == db.search && after.vec.Some? == db.vec.Some?
            && (after.vec.Some? ==> after.vec.value.dimensions == db.vec.value.dimensions)
  {
  }

  lemma NextKeeps(sys: Sys, step: Step)
    requires SysInv(sys)
    ensures SysInv(Next(sys, step))
  {
    match step
    case Boot(identity) => if sys.phase == Down && IsConfigured(identity) { BootKeeps(sys, identity); }
    case BackfillRow(docId, chunk, now) =>
      if sys.phase.Backfilling? && docId in sys.db.documents.rows { BackfillRowKeeps(sys, docId, chunk, now); }
    case BackfillClean(docId) => if sys.phase.Backfilling? { BackfillCleanKeeps(sys, docId); }
    case FinishBackfill =>
    case StartupEnqueue(payload, now) =>
      EnqueueKeepsJobs(sys.db.jobs, payload, now);
      hide Enqueue, JobsOk, RowsOk, PathsUnique, ModelsOk;
    case FinishSeeding(now) =>
      SeedKeeps(sys.db, now);
      hide SeedJobs, Inv, IndexComplete;
    case IndexStatement => IndexNextKeeps(sys);
    case Serve(tx) => if sys.phase.Serving? { ServeKeeps(sys, tx); }
    case Crash =>
  }

  lemma {:induction false} RunKeeps(sys: Sys, steps: seq<Step>)
    requires SysInv(sys)
    ensures SysInv(Run(sys, steps))
    decreases |steps|
  {
    hide SysInv;
    if steps != [] {
      NextKeeps(sys, steps[0]);
      RunKeeps(Next(sys, steps[0]), steps[1..]);
    }
  }

  ghost predicate IsReachable(sys: Sys) { exists steps :: sys == Run(INITIAL, steps) }

  lemma ReachableIsSound(sys: Sys)
    requires IsReachable(sys)
    ensures SysInv(sys)
  {
    var steps :| sys == Run(INITIAL, steps);
    EmptyDbIsSound();
    RunKeeps(INITIAL, steps);
  }

  // -------------------------------------------------------------------------
  // Main results
  // -------------------------------------------------------------------------

  /** State homogeneity, in every reachable state. */
  lemma RowsOfPairShareState(sys: Sys, i: int, j: int)
    requires IsReachable(sys)
    requires i in sys.db.embeddings.rows && j in sys.db.embeddings.rows
    requires IsPair(sys.db.embeddings.rows[i], sys.db.embeddings.rows[j].documentId, sys.db.embeddings.rows[j].modelId)
    ensures sys.db.embeddings.rows[i].state == sys.db.embeddings.rows[j].state
  {
    ReachableIsSound(sys);
  }

  /** Reachable keys: one document per path, one row per key, one job per payload, and every Embedded
      row holds four bytes per dimension. */
  lemma ReachableKeys(sys: Sys)
    requires IsReachable(sys)
    ensures PathsUnique(sys.db.documents)
    ensures KeysUnique(sys.db.embeddings)
    ensures JobsOk(sys.db.jobs)
    ensures RowsSound(sys.db)
  {
    ReachableIsSound(sys);
  }

  /** The sandwich: in every reachable state each vector is an Embedded row with the same bytes, and
      while serving, unless an index build was ever torn and not redone, each Embedded row of the
      served model is in the index, whose stored state names that model and whose table has its
      dimension. */
  lemma IndexSandwich(sys: Sys)
    requires IsReachable(sys)
    ensures VecSound(sys.db.vec, sys.db.embeddings)
    ensures sys.phase.Serving? ==>
              && sys.db.vec.Some? && sys.db.search.Some?
              && sys.db.search.value.activeModelId == sys.phase.modelId
    ensures sys.phase.Serving? && !sys.torn ==>
              && VecHolds(sys.db.vec.value, sys.db.embeddings, sys.phase.modelId)
              && sys.phase.modelId in sys.db.models.rows
              && sys.db.vec.value.dimensions == sys.db.models.rows[sys.phase.modelId].dimensions
  {
    ReachableIsSound(sys);
  }

  /** `ensure_active_search_model` trusts a matching
      search state, so it makes the index complete exactly when it rebuilds or finds it complete. */
  lemma EnsureIndexCompletes(db: Db, modelId: int)
    requires Inv(db) && modelId in db.models.rows
    ensures var dimensions := db.models.rows[modelId].dimensions;
            var after := EnsureIndex(db, modelId, dimensions);
            && EnsureIndexError(db, modelId, dimensions) == None
            && Inv(after)
            && after.vec.Some? && after.search == Some(SearchState(modelId, dimensions))
            && (VecHolds(after.vec.value, after.embeddings, modelId) <==>
                  RequiresRebuild(db, modelId, dimensions) || VecHolds(db.vec.value, db.embeddings, modelId))
  {
    BackfillCheckHolds(db, modelId);
    hide RowsOk, JobsOk, PathsUnique, BackfillChecks;
    var dimensions := db.models.rows[modelId].dimensions;
    var after := EnsureIndex(db, modelId, dimensions);
    forall id | id in db.embeddings.rows && db.embeddings.rows[id].modelId == modelId
                && db.embeddings.rows[id].state == Embedded
      ensures RequiresRebuild(db, modelId, dimensions) ==> id in after.vec.value.entries
    {
      assert RowIsSound(db, db.embeddings.rows[id]);
    }
  }

  /** A rebuild indexes the Embedded rows of the model and no others, each with its own bytes. */
  lemma RebuildIndexesExactly(db: Db, modelId: int)
    requires Inv(db) && modelId in db.models.rows && RequiresRebuild(db, modelId, db.models.rows[modelId].dimensions)
    ensures var after := EnsureIndex(db, modelId, db.models.rows[modelId].dimensions);
            && after.vec.Some? && after.vec.value.dimensions == db.models.rows[modelId].dimensions
            && (forall id :: id in after.vec.value.entries <==>
                  id in db.embeddings.rows && db.embeddings.rows[id].modelId == modelId
                  && db.embeddings.rows[id].state == Embedded)
            && (forall id :: id in after.vec.value.entries ==>
                  db.embeddings.rows[id].embedding == Some(after.vec.value.entries[id]))
  {
    BackfillCheckHolds(db, modelId);
    DimensionsArePositive(db, modelId);
    hide RowsOk, JobsOk, PathsUnique, ModelsOk, BackfillChecks;
    forall id | id in db.embeddings.rows && db.embeddings.rows[id].state == Embedded
      ensures db.embeddings.rows[id].embedding.Some?
    {
      assert RowIsSound(db, db.embeddings.rows[id]);
    }
  }

  /** `ensure_active_search_model` is the run of its statements without a crash. */
  lemma EnsureIndexIsItsStatements(db: Db, modelId: int, torn: bool)
    requires Inv(db) && modelId in db.models.rows
    ensures var dimensions := db.models.rows[modelId].dimensions;
            Run(Sys(db, Indexing(modelId), torn),
                if RequiresRebuild(db, modelId, dimensions)
                then [IndexStatement, IndexStatement, IndexStatement, IndexStatement] else [IndexStatement])
            == Sys(EnsureIndex(db, modelId, dimensions), Serving(modelId),
                   torn && !RequiresRebuild(db, modelId, dimensions))
  {
    hide Inv;
    var s0 := Sys(db, Indexing(modelId), torn);
    var dimensions := db.models.rows[modelId].dimensions;
    assert dimensions > 0 && BackfillChecks(db, modelId, dimensions) by {
      BackfillCheckHolds(db, modelId);
      DimensionsArePositive(db, modelId);
    }
    var s1 := Next(s0, IndexStatement);
    var s2 := Next(s1, IndexStatement);
    var s3 := Next(s2, IndexStatement);
    if RequiresRebuild(db, modelId, db.models.rows[modelId].dimensions) {
      hide Run, BackfillChecks;
      RunFour(s0, IndexStatement, IndexStatement, IndexStatement, IndexStatement);
    } else {
      RunOne(s0, IndexStatement, []);
    }
  }

  lemma DimensionsArePositive(db: Db, modelId: int)
    requires Inv(db) && modelId in db.models.rows
    ensures db.models.rows[modelId].dimensions > 0
  {
  }

  /** The statements of an index build up to the stored search state. */
  const TORN_BUILD: seq<Step> := [IndexStatement, IndexStatement, IndexStatement]

  /** A crash after the search state is stored and before the backfill is never repaired: the next
      start finds a matching state, rebuilds nothing, and serves an index without the row. */
  lemma TornBuildIsNotRepaired(db: Db, modelId: int, rowId: int)
    requires Inv(db) && modelId in db.models.rows
    requires RequiresRebuild(db, modelId, db.models.rows[modelId].dimensions)
    requires rowId in db.embeddings.rows && db.embeddings.rows[rowId].modelId == modelId
    requires db.embeddings.rows[rowId].state == Embedded
    ensures var identity := db.models.rows[modelId];
            var served := Run(Sys(db, Indexing(modelId), false),
                              TORN_BUILD + [Crash, Boot(identity), FinishSeeding(0), IndexStatement]);
            && served.phase == Serving(modelId)
            && served.db.embeddings == db.embeddings
            && served.db.vec.Some?
            && rowId !in served.db.vec.value.entries
            && !VecHolds(served.db.vec.value, served.db.embeddings, modelId)
  {
    var identity, dimensions := db.models.rows[modelId], db.models.rows[modelId].dimensions;
    var stored := StoreSearchState(CreateVecTable(DropVecTable(db), dimensions), modelId, dimensions);
    FindsOwnModel(db, modelId);
    TornBuildRuns(db, modelId, [Crash, Boot(identity), FinishSeeding(0), IndexStatement]);
    hide Inv, Run, FindModel, SeedJobs;
    RestartRuns(stored, modelId);
  }

  lemma TornBuildRuns(db: Db, modelId: int, rest: seq<Step>)
    requires modelId in db.models.rows && RequiresRebuild(db, modelId, db.models.rows[modelId].dimensions)
    ensures var dimensions := db.models.rows[modelId].dimensions;
            var stored := StoreSearchState(CreateVecTable(DropVecTable(db), dimensions), modelId, dimensions);
            Run(Sys(db, Indexing(modelId), false), TORN_BUILD + rest)
            == Run(Sys(stored, StateStored(modelId), false), rest)
  {
    hide BackfillChecks, Run;
    var s0 := Sys(db, Indexing(modelId), false);
    var s1 := Next(s0, IndexStatement);
    var s2 := Next(s1, IndexStatement);
    RunOne(s2, IndexStatement, rest);
    RunOne(s1, IndexStatement, [IndexStatement] + rest);
    RunOne(s0, IndexStatement, [IndexStatement] + ([IndexStatement] + rest));
    assert [IndexStatement] + ([IndexStatement] + ([IndexStatement] + rest)) == TORN_BUILD + rest;
  }

  /** A process that stops with a matching search state stored builds nothing when it starts again. */
  lemma RestartRuns(db: Db, modelId: int)
    requires modelId in db.models.rows && FindModel(db.models, db.models.rows[modelId]) == Some(modelId)
    requires db.models.rows[modelId].dimensions > 0
    requires !RequiresRebuild(db, modelId, db.models.rows[modelId].dimensions)
    ensures Run(Sys(db, StateStored(modelId), false),
                [Crash, Boot(db.models.rows[modelId]), FinishSeeding(0), IndexStatement])
            == Sys(Seed(db, 0), Serving(modelId), true)
  {
    hide FindModel, SeedJobs, Run, BackfillChecks;
    var identity := db.models.rows[modelId];
    var stored := Sys(db, StateStored(modelId), false);
    var stopped := Next(stored, Crash);
    var booted := Next(stopped, Boot(identity));
    var seeded := Next(booted, FinishSeeding(0));
    RunFour(stored, Crash, Boot(identity), FinishSeeding(0), IndexStatement);
    assert Next(seeded, IndexStatement) == seeded.(phase := Serving(modelId));
  }

  lemma RunFour(sys: Sys, a: Step, b: Step, c: Step, d: Step)
    ensures Run(sys, [a, b, c, d]) == Next(Next(Next(Next(sys, a), b), c), d)
  {
    hide Next;
    var s1 := Next(sys, a);
    var s2 := Next(s1, b);
    var s3 := Next(s2, c);
    assert Run(sys, [a, b, c, d]) == Run(s1, [b, c, d]) by { assert [a, b, c, d][1..] == [b, c, d]; }
    assert Run(s1, [b, c, d]) == Run(s2, [c, d]) by { assert [b, c, d][1..] == [c, d]; }
    assert Run(s2, [c, d]) == Run(s3, [d]) by { assert [c, d][1..] == [d]; }
    assert Run(s3, [d]) == Next(s3, d);
  }

  lemma NothingRuns(sys: Sys)
    ensures Run(sys, []) == sys
  {
  }

  lemma FindsOwnModel(db: Db, modelId: int)
    requires Inv(db) && modelId in db.models.rows
    ensures FindModel(db.models, db.models.rows[modelId]) == Some(modelId)
  {
  }

  lemma RunOne(sys: Sys, step: Step, rest: seq<Step>)
    ensures Run(sys, [step] + rest) == Run(Next(sys, step), rest)
  {
  }
}
