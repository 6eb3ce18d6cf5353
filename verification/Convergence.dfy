/** Dispatching every queued embed job once finishes all work: no row needs embedding afterwards. */
module Convergence {
  import opened Prelude
  import opened Types
  import opened Tables
  import opened Ordering
  import opened JobQueue
  import opened StoreSpec
  import opened StoreInvariant
  import opened StoreSteps
  import opened ContentRead
  import opened ChunkPlanning
  import opened EmbedJob
  import opened EmbedResults
  import opened PlanThenEmbed

  /** The files, and the provider's answer to each job. */
  datatype World = World(files: map<Path, FileBytes>, details: DocumentDetails, answers: map<int, seq<Vector>>)

  predicate IsEmbedJob(db: Db, jobId: int) { jobId in db.jobs.rows && db.jobs.rows[jobId].payload.EmbedDocument? }

  function JobDoc(db: Db, jobId: int): int
    requires IsEmbedJob(db, jobId)
  {
    db.jobs.rows[jobId].payload.documentId
  }

  function JobModel(db: Db, jobId: int): int
    requires IsEmbedJob(db, jobId)
  {
    db.jobs.rows[jobId].payload.modelId
  }

  function ViewOf(db: Db, world: World, docId: int): FileView {
    if docId in db.documents.rows && db.documents.rows[docId].filepath in world.files
    then Present(world.files[db.documents.rows[docId].filepath], true, world.details)
    else NotFound
  }

  function Dispatched(db: Db, world: World, jobId: int, now: int): Db
    requires IsEmbedJob(db, jobId)
  {
    var vectors := if jobId in world.answers then world.answers[jobId] else [];
    var docId := JobDoc(db, jobId);
    ApplyTxs(db, JobTxs(db, jobId, docId, JobModel(db, jobId), ViewOf(db, world, docId), Vectors(vectors), now))
  }

  // -------------------------------------------------------------------------
  // What a job needs
  // -------------------------------------------------------------------------

  ghost predicate FileIsCurrent(db: Db, world: World, docId: int)
    requires docId in db.documents.rows
  {
    var doc := db.documents.rows[docId];
    doc.filepath in world.files && FileHash(world.files[doc.filepath]) == doc.fileHash
  }

  ghost predicate PairIsAnswered(db: Db, world: World, jobId: int, docId: int, modelId: int)
    requires modelId in db.models.rows
  {
    && IndexFits(db, modelId) && jobId in world.answers
    && AnswersEach(db, modelId, |ListRecoverable(db.embeddings, docId, modelId)|, world.answers[jobId])
  }

  /** The model is registered; if the document exists its file is the one that was planned, its rows come
      from that plan, and if they need embedding the provider answers and the index fits. */
  ghost predicate JobIsReady(db: Db, world: World, jobId: int)
    requires IsEmbedJob(db, jobId)
  {
    var docId, modelId := JobDoc(db, jobId), JobModel(db, jobId);
    && modelId in db.models.rows
    && (docId in db.documents.rows ==>
          && FileIsCurrent(db, world, docId)
          && OnlyPlanned(db.embeddings, docId, modelId,
                         PlannedChunks(world.files[db.documents.rows[docId].filepath], db.models.rows[modelId]))
          && (PairIsRecoverable(db.embeddings, docId, modelId) ==> PairIsAnswered(db, world, jobId, docId, modelId)))
  }

  // -------------------------------------------------------------------------
  // One job
  // -------------------------------------------------------------------------

  /** Each row of the pair holds the vector answered for exactly its planned text. */
  ghost predicate HoldsAnswers(db: Db, rows: Rows, world: World, jobId: int, docId: int, modelId: int) {
    docId in db.documents.rows && PairIsRecoverable(db.embeddings, docId, modelId) ==>
      && db.documents.rows[docId].filepath in world.files && jobId in world.answers
      && var filepath := db.documents.rows[docId].filepath;
      var chunks := ChunksAt(db.embeddings, ListRecoverable(db.embeddings, docId, modelId));
      var prepared := PreparedChunks(filepath, world.files[filepath], chunks);
      && prepared.Success? && |prepared.value| == |world.answers[jobId]|
      && PairIsEmbeddedFrom(rows, docId, modelId, filepath, world.files[filepath], prepared.value, world.answers[jobId])
  }

  ghost predicate SameConfiguration(before: Db, after: Db) {
    && after.documents == before.documents && after.models == before.models
    && after.search == before.search && after.vec.Some? == before.vec.Some?
    && (after.vec.Some? ==> after.vec.value.dimensions == before.vec.value.dimensions)
  }

  /** The job is gone, its pair is embedded, and nothing else changed. */
  ghost predicate IsFinished(before: Db, after: Db, world: World, jobId: int, docId: int, modelId: int) {
    && SameConfiguration(before, after)
    && after.jobs == Complete(before.jobs, jobId)
    && OthersKept(before.embeddings, after.embeddings, docId, modelId)
    && SameChunks(before.embeddings, after.embeddings, docId, modelId)
    && HoldsAnswers(before, after.embeddings, world, jobId, docId, modelId)
  }

  lemma CompleteOnly(db: Db, world: World, jobId: int, docId: int, modelId: int)
    requires docId in db.documents.rows ==> !PairIsRecoverable(db.embeddings, docId, modelId)
    ensures IsFinished(db, ApplyTx(db, CompleteTx(jobId)), world, jobId, docId, modelId)
  {
  }

  lemma CompleteTwice(db: Db, jobId: int)
    ensures ApplyTxs(db, [CompleteTx(jobId), CompleteTx(jobId)]) == ApplyTx(db, CompleteTx(jobId))
  {
    TwoTxs(db, CompleteTx(jobId), CompleteTx(jobId));
  }

  /** An embed run keeps the documents, and the queue but for its own entry. */
  lemma EmbedKeepsTables(db: Db, jobId: int, docId: int, modelId: int, file: FileBytes, vectors: seq<Vector>, now: int)
    requires docId in db.documents.rows
    ensures var after := ApplyTxs(db, EmbedTxs(db, jobId, docId, modelId, file, true, Vectors(vectors), now));
            && after.documents == db.documents
            && (after.jobs == db.jobs || after.jobs == Complete(db.jobs, jobId))
  {
    hide ListRecoverable, PreparedChunks, ReplaceError, Embedding;
    var txs := EmbedTxs(db, jobId, docId, modelId, file, true, Vectors(vectors), now);
    if |txs| == 1 {
      OneTx(db, txs[0]);
    } else if |txs| == 2 {
      TwoTxs(db, txs[0], txs[1]);
      ReplaceKeepsTables(db, txs[0].docId, txs[0].modelId, txs[0].embedded, now);
    }
  }

  lemma ReplaceKeepsTables(db: Db, docId: int, modelId: int, embedded: seq<EmbeddedChunk>, now: int)
    ensures var after := ReplaceEmbeddings(db, docId, modelId, embedded, now);
            after.documents == db.documents && after.jobs == db.jobs
  {
  }

  lemma NothingListed(rows: Rows, docId: int, modelId: int)
    ensures ListRecoverable(rows, docId, modelId) != [] ==> PairIsRecoverable(rows, docId, modelId)
  {
    var ids := ListRecoverable(rows, docId, modelId);
    if ids != [] { assert ids[0] in rows.rows; }
  }

  lemma DispatchFinishes(db: Db, world: World, jobId: int, now: int)
    requires Inv(db) && NoLostWork(db) && IsEmbedJob(db, jobId) && JobIsReady(db, world, jobId)
    ensures var after := Dispatched(db, world, jobId, now);
            && Inv(after) && NoLostWork(after)
            && IsFinished(db, after, world, jobId, JobDoc(db, jobId), JobModel(db, jobId))
  {
    var docId, modelId := JobDoc(db, jobId), JobModel(db, jobId);
    var view := ViewOf(db, world, docId);
    var vectors := if jobId in world.answers then world.answers[jobId] else [];
    var txs := JobTxs(db, jobId, docId, modelId, view, Vectors(vectors), now);
    IdsAreKnown(db, jobId);
    hide Inv, NoLostWork, ApplyTxs, ApplyTx, EmbedTxs, ReplanTxs, PlannedChunks, ListRecoverable, PreparedChunks,
      AnswersEach, OnlyPlanned, PairIsRecoverable, IsFinished, OthersKept, SameChunks, HoldsAnswers;
    TxsKeepInv(db, txs);
    JobKeepsWork(db, jobId, docId, modelId, view, Vectors(vectors), now);
    if docId !in db.documents.rows {
      CompleteTwice(db, jobId);
      CompleteOnly(db, world, jobId, docId, modelId);
    } else if PairIsRecoverable(db.embeddings, docId, modelId) {
      EmbedFinishes(db, world, jobId, docId, modelId, now);
    } else {
      NothingListed(db.embeddings, docId, modelId);
      IdleTxs(db, jobId, docId, modelId, view.bytes, Vectors(vectors), now);
      OneTx(db, CompleteTx(jobId));
      CompleteOnly(db, world, jobId, docId, modelId);
    }
  }

  lemma IdsAreKnown(db: Db, jobId: int)
    requires Inv(db) && IsEmbedJob(db, jobId)
    ensures IsEntry(db.jobs, jobId, JobDoc(db, jobId), JobModel(db, jobId))
  {
  }

  lemma IdleTxs(db: Db, jobId: int, docId: int, modelId: int, file: FileBytes, provider: ProviderResult, now: int)
    requires docId in db.documents.rows && ListRecoverable(db.embeddings, docId, modelId) == []
    ensures EmbedTxs(db, jobId, docId, modelId, file, true, provider, now) == [CompleteTx(jobId)]
  {
  }

  lemma EmbedFinishes(db: Db, world: World, jobId: int, docId: int, modelId: int, now: int)
    requires Inv(db) && IsEmbedJob(db, jobId) && JobIsReady(db, world, jobId)
    requires docId == JobDoc(db, jobId) && modelId == JobModel(db, jobId)
    requires docId in db.documents.rows && PairIsRecoverable(db.embeddings, docId, modelId)
    ensures IsFinished(db, Dispatched(db, world, jobId, now), world, jobId, docId, modelId)
  {
    var filepath := db.documents.rows[docId].filepath;
    var file, vectors := world.files[filepath], world.answers[jobId];
    hide Inv, ApplyTxs, ApplyTx, ReplanTxs, PlannedChunks, ListRecoverable, PreparedChunks, AnswersEach, OnlyPlanned,
      PairIsRecoverable, OthersKept, SameChunks, PairIsEmbeddedFrom, EmbedTxs;
    EmbedFulfilsPlan(db, jobId, docId, modelId, file, world.details, vectors, now);
    EmbedKeepsTables(db, jobId, docId, modelId, file, vectors, now);
    TxsKeepConfiguration(db, JobTxs(db, jobId, docId, modelId, Present(file, true, world.details),
                                    Vectors(vectors), now));
  }

  // -------------------------------------------------------------------------
  // The other pairs
  // -------------------------------------------------------------------------

  /** The pair has the same rows before and after. */
  ghost predicate SamePair(before: Rows, after: Rows, docId: int, modelId: int) {
    && (forall id :: id in before.rows && IsPair(before.rows[id], docId, modelId) ==>
          id in after.rows && after.rows[id] == before.rows[id])
    && (forall id :: id in after.rows && IsPair(after.rows[id], docId, modelId) ==>
          id in before.rows && before.rows[id] == after.rows[id])
  }

  lemma OthersAreSame(before: Rows, after: Rows, docId: int, modelId: int, otherDoc: int, otherModel: int)
    requires OthersKept(before, after, docId, modelId) && (docId != otherDoc || modelId != otherModel)
    ensures SamePair(before, after, otherDoc, otherModel)
  {
  }

  lemma SamePairs(x: Rows, y: Rows, z: Rows, docId: int, modelId: int)
    requires SamePair(x, y, docId, modelId) && SamePair(y, z, docId, modelId)
    ensures SamePair(x, z, docId, modelId)
  {
  }

  lemma SamePairList(before: Rows, after: Rows, docId: int, modelId: int)
    requires SamePair(before, after, docId, modelId)
    ensures ListRecoverable(before, docId, modelId) == ListRecoverable(after, docId, modelId)
    ensures ChunksAt(before, ListRecoverable(before, docId, modelId))
            == ChunksAt(after, ListRecoverable(after, docId, modelId))
    ensures PairIsRecoverable(before, docId, modelId) <==> PairIsRecoverable(after, docId, modelId)
  {
    assert RecoverableKeys(before, docId, modelId) == RecoverableKeys(after, docId, modelId);
  }

  lemma SamePairChunks(x: Rows, y: Rows, z: Rows, docId: int, modelId: int)
    requires SamePair(x, y, docId, modelId) && SameChunks(y, z, docId, modelId)
    ensures SameChunks(x, z, docId, modelId)
  {
    forall chunk
      ensures HasChunk(x, docId, modelId, chunk) <==> HasChunk(y, docId, modelId, chunk)
    {
    }
    hide HasChunk;
  }

  lemma ChunksSamePair(x: Rows, y: Rows, z: Rows, docId: int, modelId: int)
    requires SameChunks(x, y, docId, modelId) && SamePair(y, z, docId, modelId)
    ensures SameChunks(x, z, docId, modelId)
  {
    forall chunk
      ensures HasChunk(y, docId, modelId, chunk) <==> HasChunk(z, docId, modelId, chunk)
    {
    }
    hide HasChunk;
  }

  lemma ReadyStays(before: Db, after: Db, world: World, jobId: int)
    requires IsEmbedJob(before, jobId) && IsEmbedJob(after, jobId) && SameConfiguration(before, after)
    requires after.jobs.rows[jobId] == before.jobs.rows[jobId]
    requires SamePair(before.embeddings, after.embeddings, JobDoc(before, jobId), JobModel(before, jobId))
    requires JobIsReady(before, world, jobId)
    ensures JobIsReady(after, world, jobId)
  {
    SamePairList(before.embeddings, after.embeddings, JobDoc(before, jobId), JobModel(before, jobId));
    hide ListRecoverable, PlannedChunks, PairIsRecoverable;
  }

  lemma AnswersOfSamePair(before: Db, after: Db, rows: Rows, world: World, jobId: int, docId: int, modelId: int)
    requires SameConfiguration(before, after) && SamePair(before.embeddings, after.embeddings, docId, modelId)
    requires HoldsAnswers(after, rows, world, jobId, docId, modelId)
    ensures HoldsAnswers(before, rows, world, jobId, docId, modelId)
  {
    SamePairList(before.embeddings, after.embeddings, docId, modelId);
    hide ListRecoverable, PreparedChunks, PairIsRecoverable, PairIsEmbeddedFrom;
  }

  lemma AnswersStay(db: Db, rows: Rows, after: Rows, world: World, jobId: int, docId: int, modelId: int)
    requires SamePair(rows, after, docId, modelId) && HoldsAnswers(db, rows, world, jobId, docId, modelId)
    ensures HoldsAnswers(db, after, world, jobId, docId, modelId)
  {
    hide ListRecoverable, PreparedChunks, PairIsRecoverable, IsEmbeddedFrom;
  }

  // -------------------------------------------------------------------------
  // All jobs
  // -------------------------------------------------------------------------

  ghost predicate AreEmbedJobs(db: Db, jobIds: seq<int>) {
    && (forall k :: 0 <= k < |jobIds| ==> IsEmbedJob(db, jobIds[k]))
    && (forall j, k :: 0 <= j < k < |jobIds| ==> jobIds[j] != jobIds[k])
  }

  function DispatchAll(db: Db, world: World, jobIds: seq<int>, now: int): Db
    decreases |jobIds|
  {
    if jobIds == [] || !IsEmbedJob(db, jobIds[0]) then db
    else DispatchAll(Dispatched(db, world, jobIds[0], now), world, jobIds[1..], now)
  }

  ghost predicate IsAmong(db: Db, jobIds: seq<int>, docId: int, modelId: int)
    requires AreEmbedJobs(db, jobIds)
  {
    exists k :: 0 <= k < |jobIds| && JobDoc(db, jobIds[k]) == docId && JobModel(db, jobIds[k]) == modelId
  }

  /** The listed jobs are gone and their pairs are embedded with their own answers; no chunk came or went,
      and no other job or pair changed. */
  ghost predicate AreFinished(before: Db, after: Db, world: World, jobIds: seq<int>)
    requires AreEmbedJobs(before, jobIds)
  {
    && SameConfiguration(before, after)
    && (forall id :: id in after.jobs.rows <==> id in before.jobs.rows && id !in jobIds)
    && (forall id :: id in after.jobs.rows ==> after.jobs.rows[id] == before.jobs.rows[id])
    && (forall k :: 0 <= k < |jobIds| ==>
          var docId, modelId := JobDoc(before, jobIds[k]), JobModel(before, jobIds[k]);
          && SameChunks(before.embeddings, after.embeddings, docId, modelId)
          && HoldsAnswers(before, after.embeddings, world, jobIds[k], docId, modelId))
    && (forall docId, modelId :: !IsAmong(before, jobIds, docId, modelId) ==>
          SamePair(before.embeddings, after.embeddings, docId, modelId))
  }

  lemma OtherJob(before: Db, after: Db, world: World, jobId: int, other: int)
    requires JobsOk(before.jobs) && IsEmbedJob(before, jobId) && IsEmbedJob(before, other) && jobId != other
    requires IsFinished(before, after, world, jobId, JobDoc(before, jobId), JobModel(before, jobId))
    ensures IsEmbedJob(after, other) && after.jobs.rows[other] == before.jobs.rows[other]
    ensures SamePair(before.embeddings, after.embeddings, JobDoc(before, other), JobModel(before, other))
  {
    hide OthersKept, SameChunks, HoldsAnswers;
    assert before.jobs.rows[jobId].payload != before.jobs.rows[other].payload;
    OthersAreSame(before.embeddings, after.embeddings, JobDoc(before, jobId), JobModel(before, jobId),
                  JobDoc(before, other), JobModel(before, other));
  }

  lemma RestIsReady(before: Db, after: Db, world: World, jobIds: seq<int>)
    requires Inv(before) && AreEmbedJobs(before, jobIds) && jobIds != []
    requires forall k :: 0 <= k < |jobIds| ==> JobIsReady(before, world, jobIds[k])
    requires IsFinished(before, after, world, jobIds[0], JobDoc(before, jobIds[0]), JobModel(before, jobIds[0]))
    ensures AreEmbedJobs(after, jobIds[1..])
    ensures forall k :: 0 < k < |jobIds| ==>
              && IsEmbedJob(after, jobIds[k]) && after.jobs.rows[jobIds[k]] == before.jobs.rows[jobIds[k]]
              && JobIsReady(after, world, jobIds[k])
              && SamePair(before.embeddings, after.embeddings, JobDoc(before, jobIds[k]), JobModel(before, jobIds[k]))
  {
    InvParts(before);
    forall k | 0 < k < |jobIds|
      ensures IsEmbedJob(after, jobIds[k]) && after.jobs.rows[jobIds[k]] == before.jobs.rows[jobIds[k]]
      ensures JobIsReady(after, world, jobIds[k])
      ensures SamePair(before.embeddings, after.embeddings, JobDoc(before, jobIds[k]), JobModel(before, jobIds[k]))
    {
      assert IsEmbedJob(before, jobIds[k]) && IsEmbedJob(before, jobIds[0]);
      OtherJob(before, after, world, jobIds[0], jobIds[k]);
      FinishedConfiguration(before, after, world, jobIds[0], JobDoc(before, jobIds[0]), JobModel(before, jobIds[0]));
      hide IsFinished, SamePair, SameConfiguration, JobIsReady, Inv, JobsOk;
      ReadyStays(before, after, world, jobIds[k]);
    }
    hide IsFinished, SamePair, JobIsReady, Inv;
  }

  lemma FinishedConfiguration(before: Db, after: Db, world: World, jobId: int, docId: int, modelId: int)
    requires IsFinished(before, after, world, jobId, docId, modelId)
    ensures SameConfiguration(before, after) && after.jobs == Complete(before.jobs, jobId)
    ensures OthersKept(before.embeddings, after.embeddings, docId, modelId)
    ensures SameChunks(before.embeddings, after.embeddings, docId, modelId)
    ensures HoldsAnswers(before, after.embeddings, world, jobId, docId, modelId)
  {
  }

  /** The first job followed by the others. */
  lemma FinishedFirst(db: Db, mid: Db, after: Db, world: World, jobIds: seq<int>)
    requires Inv(db) && AreEmbedJobs(db, jobIds) && jobIds != [] && AreEmbedJobs(mid, jobIds[1..])
    requires IsFinished(db, mid, world, jobIds[0], JobDoc(db, jobIds[0]), JobModel(db, jobIds[0]))
    requires AreFinished(mid, after, world, jobIds[1..])
    ensures AreFinished(db, after, world, jobIds)
  {
    var first, rest := jobIds[0], jobIds[1..];
    assert IsEmbedJob(db, first);
    var docId, modelId := JobDoc(db, first), JobModel(db, first);
    InvParts(db);
    FinishedConfiguration(db, mid, world, first, docId, modelId);
    hide IsFinished, HoldsAnswers, SameChunks, OthersKept, SamePair, Inv;
    forall k | 0 < k < |jobIds|
      ensures IsEmbedJob(db, jobIds[k]) && rest[k - 1] == jobIds[k]
      ensures IsEmbedJob(mid, jobIds[k]) && mid.jobs.rows[jobIds[k]] == db.jobs.rows[jobIds[k]]
      ensures docId != JobDoc(db, jobIds[k]) || modelId != JobModel(db, jobIds[k])
      ensures SamePair(db.embeddings, mid.embeddings, JobDoc(db, jobIds[k]), JobModel(db, jobIds[k]))
    {
      OtherJob(db, mid, world, first, jobIds[k]);
      assert db.jobs.rows[first].payload != db.jobs.rows[jobIds[k]].payload;
    }
    hide JobsOk;
    assert !IsAmong(mid, rest, docId, modelId);
    forall k | 0 <= k < |jobIds|
      ensures SameChunks(db.embeddings, after.embeddings, JobDoc(db, jobIds[k]), JobModel(db, jobIds[k]))
      ensures HoldsAnswers(db, after.embeddings, world, jobIds[k], JobDoc(db, jobIds[k]), JobModel(db, jobIds[k]))
    {
      if k == 0 {
        ChunksSamePair(db.embeddings, mid.embeddings, after.embeddings, docId, modelId);
        AnswersStay(db, mid.embeddings, after.embeddings, world, first, docId, modelId);
      } else {
        assert rest[k - 1] == jobIds[k];
        var d, m := JobDoc(db, jobIds[k]), JobModel(db, jobIds[k]);
        SamePairChunks(db.embeddings, mid.embeddings, after.embeddings, d, m);
        AnswersOfSamePair(db, mid, after.embeddings, world, jobIds[k], d, m);
      }
    }
    forall d, m | !IsAmong(db, jobIds, d, m)
      ensures SamePair(db.embeddings, after.embeddings, d, m)
    {
      assert docId != d || modelId != m;
      OthersAreSame(db.embeddings, mid.embeddings, docId, modelId, d, m);
      assert !IsAmong(mid, rest, d, m);
      SamePairs(db.embeddings, mid.embeddings, after.embeddings, d, m);
    }
    assert jobIds == [first] + rest;
  }

  lemma NothingFinished(db: Db, world: World)
    ensures AreEmbedJobs(db, []) && AreFinished(db, db, world, [])
  {
  }

  lemma {:induction false} DispatchAllFinishes(db: Db, world: World, jobIds: seq<int>, now: int)
    requires Inv(db) && NoLostWork(db) && AreEmbedJobs(db, jobIds)
    requires forall k :: 0 <= k < |jobIds| ==> JobIsReady(db, world, jobIds[k])
    ensures var after := DispatchAll(db, world, jobIds, now);
            Inv(after) && NoLostWork(after) && AreFinished(db, after, world, jobIds)
    decreases |jobIds|
  {
    hide Inv, NoLostWork, JobIsReady, IsFinished, AreFinished, SamePair, Dispatched;
    if jobIds == [] {
      NothingFinished(db, world);
    } else {
      var mid := Dispatched(db, world, jobIds[0], now);
      DispatchFinishes(db, world, jobIds[0], now);
      RestIsReady(db, mid, world, jobIds);
      DispatchAllFinishes(mid, world, jobIds[1..], now);
      FinishedFirst(db, mid, DispatchAll(mid, world, jobIds[1..], now), world, jobIds);
    }
  }

  /** If no work is lost and every queued embed job is ready, dispatching each of them once, in any order,
      converges: no row needs embedding, no embed job is left, every pair has the chunks it had, and every
      row that needed embedding holds the vector of its planned text. */
  lemma DispatchConverges(db: Db, world: World, jobIds: seq<int>, now: int)
    requires Inv(db) && NoLostWork(db) && AreEmbedJobs(db, jobIds)
    requires forall jobId :: IsEmbedJob(db, jobId) ==> jobId in jobIds && JobIsReady(db, world, jobId)
    ensures var after := DispatchAll(db, world, jobIds, now);
            && Inv(after) && AreFinished(db, after, world, jobIds)
            && (forall id :: id in after.embeddings.rows ==> after.embeddings.rows[id].state == Embedded)
            && (forall jobId :: !IsEmbedJob(after, jobId))
  {
    hide Inv, JobIsReady;
    var after := DispatchAll(db, world, jobIds, now);
    forall k | 0 <= k < |jobIds|
      ensures JobIsReady(db, world, jobIds[k])
    {
      assert IsEmbedJob(db, jobIds[k]);
    }
    DispatchAllFinishes(db, world, jobIds, now);
    NoJobIsLeft(db, after, world, jobIds);
    hide AreFinished, DispatchAll;
    forall id | id in after.embeddings.rows
      ensures after.embeddings.rows[id].state == Embedded
    {
      RecoverableHasJob(after, id);
    }
  }

  lemma RecoverableHasJob(db: Db, id: int)
    requires NoLostWork(db) && id in db.embeddings.rows
    ensures IsRecoverable(db.embeddings.rows[id]) ==> exists jobId :: IsEmbedJob(db, jobId)
  {
    if IsRecoverable(db.embeddings.rows[id]) {
      var row := db.embeddings.rows[id];
      var jobId :| jobId in db.jobs.rows && db.jobs.rows[jobId].payload == EmbedDocument(row.documentId, row.modelId);
      assert IsEmbedJob(db, jobId);
    }
  }

  lemma NoJobIsLeft(db: Db, after: Db, world: World, jobIds: seq<int>)
    requires AreEmbedJobs(db, jobIds) && AreFinished(db, after, world, jobIds)
    requires forall jobId :: IsEmbedJob(db, jobId) ==> jobId in jobIds
    ensures forall jobId :: !IsEmbedJob(after, jobId)
  {
    forall jobId
      ensures !IsEmbedJob(after, jobId)
    {
      assert jobId in after.jobs.rows ==> after.jobs.rows[jobId] == db.jobs.rows[jobId];
    }
  }
}
