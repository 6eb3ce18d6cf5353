/** When does a run of single transactions, in any interleaving, lose work? */
module WorkRuns {
  import opened Prelude
  import opened Types
  import opened Tables
  import opened JobQueue
  import opened StoreSpec
  import opened StoreInvariant
  import opened StoreSteps
  import opened EmbedJob
  import opened EmbedResults

  ghost predicate IsIdle(rows: Rows, payload: JobPayload) {
    match payload
    case EmbedDocument(docId, modelId) => !PairIsRecoverable(rows, docId, modelId)
    case _ => true
  }

  /** A completion of a queued embed job finds its pair with nothing left to embed. */
  ghost predicate IsSafeHere(db: Db, tx: Tx) {
    match tx
    case QueueTx(CompleteOp(jobId)) => jobId in db.jobs.rows ==> IsIdle(db.embeddings, db.jobs.rows[jobId].payload)
    case _ => true
  }

  lemma ReplaceKeepsWork(db: Db, docId: int, modelId: int, chunks: seq<EmbeddedChunk>, now: int)
    requires Inv(db) && NoLostWork(db)
    ensures NoLostWork(ReplaceEmbeddings(db, docId, modelId, chunks, now))
  {
    if ReplaceError(db, docId, modelId, chunks, now).None? {
      ReplacedRowsEffect(db, docId, modelId, chunks, now);
      hide RowsOk, ReplacedRows, DistinctChunks, NoLostWork;
      ReplacedPairKeepsWork(db, ReplaceEmbeddings(db, docId, modelId, chunks, now), docId, modelId);
    }
  }

  /** The only transaction that can lose work is an unsafe completion, and it always does. */
  lemma StepKeepsWorkIff(db: Db, tx: Tx)
    requires Inv(db) && NoLostWork(db)
    ensures NoLostWork(ApplyTx(db, tx)) <==> IsSafeHere(db, tx)
  {
    match tx
    case ReplaceTx(docId, modelId, chunks, now) => ReplaceKeepsWork(db, docId, modelId, chunks, now);
    case QueueTx(CompleteOp(jobId)) =>
      if jobId in db.jobs.rows {
        CompleteIsSafeIff(db, jobId);
      } else {
        assert ApplyTx(db, tx) == db;
      }
    case _ => BackgroundKeepsWork(db, tx);
  }

  lemma {:induction false} TxsLast(db: Db, txs: seq<Tx>, tx: Tx)
    ensures ApplyTxs(db, txs + [tx]) == ApplyTx(ApplyTxs(db, txs), tx)
    decreases |txs|
  {
    if txs == [] {
      assert txs + [tx] == [tx];
      OneTx(db, tx);
    } else {
      assert (txs + [tx])[1..] == txs[1..] + [tx];
      TxsLast(ApplyTx(db, txs[0]), txs[1..], tx);
    }
  }

  lemma TxsUpTo(db: Db, txs: seq<Tx>, n: nat)
    requires n < |txs|
    ensures ApplyTxs(db, txs[..n + 1]) == ApplyTx(ApplyTxs(db, txs[..n]), txs[n])
  {
    assert txs[..n + 1] == txs[..n] + [txs[n]];
    TxsLast(db, txs[..n], txs[n]);
  }

  /** The database after the first `n` transactions. */
  function AfterFirst(db: Db, txs: seq<Tx>, n: nat): Db
    requires n <= |txs|
  {
    ApplyTxs(db, txs[..n])
  }

  /** Work is safe all along the run exactly when every completion of a queued embed job comes when its
      pair has nothing left to embed. */
  lemma {:induction false} RunKeepsWorkIff(db: Db, txs: seq<Tx>)
    requires Inv(db) && NoLostWork(db)
    ensures (forall n :: 0 <= n <= |txs| ==> NoLostWork(AfterFirst(db, txs, n)))
            <==> forall n :: 0 <= n < |txs| ==> IsSafeHere(AfterFirst(db, txs, n), txs[n])
  {
    hide Inv, NoLostWork, ApplyTx, IsSafeHere, AfterFirst;
    if forall n :: 0 <= n <= |txs| ==> NoLostWork(AfterFirst(db, txs, n)) {
      forall n | 0 <= n < |txs|
        ensures IsSafeHere(AfterFirst(db, txs, n), txs[n])
      {
        StepAlongRun(db, txs, n);
        assert NoLostWork(AfterFirst(db, txs, n)) && NoLostWork(AfterFirst(db, txs, n + 1));
      }
    } else if forall n :: 0 <= n < |txs| ==> IsSafeHere(AfterFirst(db, txs, n), txs[n]) {
      forall n | 0 <= n <= |txs|
        ensures NoLostWork(AfterFirst(db, txs, n))
      {
        SafeStepsKeepWork(db, txs, n);
      }
    }
  }

  lemma StepAlongRun(db: Db, txs: seq<Tx>, n: nat)
    requires Inv(db) && n < |txs|
    ensures NoLostWork(AfterFirst(db, txs, n)) ==>
              (NoLostWork(AfterFirst(db, txs, n + 1)) <==> IsSafeHere(AfterFirst(db, txs, n), txs[n]))
  {
    hide Inv, NoLostWork, ApplyTx, IsSafeHere;
    TxsKeepInv(db, txs[..n]);
    TxsUpTo(db, txs, n);
    if NoLostWork(AfterFirst(db, txs, n)) { StepKeepsWorkIff(AfterFirst(db, txs, n), txs[n]); }
  }

  lemma {:induction false} SafeStepsKeepWork(db: Db, txs: seq<Tx>, n: nat)
    requires Inv(db) && NoLostWork(db) && n <= |txs|
    requires forall k :: 0 <= k < |txs| ==> IsSafeHere(AfterFirst(db, txs, k), txs[k])
    ensures NoLostWork(AfterFirst(db, txs, n))
  {
    hide Inv, NoLostWork, ApplyTx, IsSafeHere;
    if n > 0 {
      SafeStepsKeepWork(db, txs, n - 1);
      StepAlongRun(db, txs, n - 1);
    } else {
      assert txs[..0] == [];
    }
  }
}
