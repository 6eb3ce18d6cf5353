/** Seeding the queue: which pairs one pass queues, and why repeating it changes nothing. */
module Seeding {
  import opened Prelude
  import opened Types
  import opened Tables
  import opened Ordering
  import opened JobQueue
  import opened StoreSpec
  import opened StoreSteps

  // -------------------------------------------------------------------------
  // Acceptance
  // -------------------------------------------------------------------------

  lemma EnqueueOnConflict(jobs: Jobs, id: int, payload: JobPayload, now: int)
    requires JobsOk(jobs) && id in jobs.rows && jobs.rows[id].payload == payload
    ensures Enqueue(jobs, payload, now)
         == if IsRefreshed(jobs.rows[id], payload, now)
            then jobs.(rows := jobs.rows[id := JobRow(payload, None, now)]) else jobs
    ensures EnqueueAccepted(jobs, payload, now) == IsRefreshed(jobs.rows[id], payload, now)
  {
    var after := Enqueue(jobs, payload, now);
    assert forall other :: other in jobs.rows && jobs.rows[other].payload == payload ==> other == id;
    assert after.rows == (if IsRefreshed(jobs.rows[id], payload, now)
                          then jobs.rows[id := JobRow(payload, None, now)] else jobs.rows);
  }

  /** Queueing one payload does not change whether another is accepted. */
  lemma AcceptanceIsIndependent(jobs: Jobs, payload: JobPayload, other: JobPayload, now: int)
    requires JobsOk(jobs) && payload != other
    ensures EnqueueAccepted(Enqueue(jobs, payload, now), other, now) == EnqueueAccepted(jobs, other, now)
  {
    var after := Enqueue(jobs, payload, now);
    if HasJob(jobs, other) {
      var id :| id in jobs.rows && jobs.rows[id].payload == other;
      assert after.rows[id] == jobs.rows[id];
    }
    if id :| id in jobs.rows && IsRefreshed(jobs.rows[id], other, now) {
      assert IsRefreshed(after.rows[id], other, now);
    }
  }

  lemma {:induction false} LaterAcceptance(jobs: Jobs, pairs: seq<Key>, pair: Key, now: int)
    requires JobsOk(jobs) && pair.third == 0 && forall k :: 0 <= k < |pairs| ==> pairs[k] != pair && pairs[k].third == 0
    ensures EnqueueAccepted(EnqueuePairs(jobs, pairs, now), PairPayload(pair), now)
         == EnqueueAccepted(jobs, PairPayload(pair), now)
  {
    if pairs != [] {
      var init, last := pairs[..|pairs| - 1], pairs[|pairs| - 1];
      LaterAcceptance(jobs, init, pair, now);
      EnqueuePairsKeepsJobs(jobs, init, now);
      hide Enqueue, EnqueueAccepted, JobsOk;
      AcceptanceIsIndependent(EnqueuePairs(jobs, init, now), PairPayload(last), PairPayload(pair), now);
    }
  }

  /** A pass queues the recoverable pairs and nothing else. */
  lemma SeedQueuesExactly(db: Db, now: int, payload: JobPayload)
    requires JobsOk(db.jobs)
    ensures HasJob(Seed(db, now).jobs, payload) <==>
              || HasJob(db.jobs, payload)
              || exists id :: id in db.embeddings.rows && IsRecoverable(db.embeddings.rows[id])
                   && payload == EmbedDocument(db.embeddings.rows[id].documentId, db.embeddings.rows[id].modelId)
  {
    var pairs := Sorted(RecoverablePairs(db.embeddings));
    SortedIsOrdered(RecoverablePairs(db.embeddings));
    EnqueuedExactly(db.jobs, pairs, now, payload);
    hide Sorted, EnqueuePairs, HasJob;
    PairsAreRecoverable(db.embeddings, pairs, payload);
  }

  lemma PairsAreRecoverable(rows: Rows, pairs: seq<Key>, payload: JobPayload)
    requires forall pair :: pair in pairs <==> pair in RecoverablePairs(rows)
    ensures (exists k :: 0 <= k < |pairs| && payload == PairPayload(pairs[k])) <==>
              exists id :: id in rows.rows && IsRecoverable(rows.rows[id])
                           && payload == EmbedDocument(rows.rows[id].documentId, rows.rows[id].modelId)
  {
    forall id | id in rows.rows && IsRecoverable(rows.rows[id])
      ensures exists k :: 0 <= k < |pairs| && pairs[k] == Key(rows.rows[id].documentId, rows.rows[id].modelId, 0)
    {
      assert Key(rows.rows[id].documentId, rows.rows[id].modelId, 0) in pairs;
    }
    forall k | 0 <= k < |pairs|
      ensures exists id :: id in rows.rows && IsRecoverable(rows.rows[id])
                && PairPayload(pairs[k]) == EmbedDocument(rows.rows[id].documentId, rows.rows[id].modelId)
    {
      assert pairs[k] in RecoverablePairs(rows);
    }
  }

  lemma EnqueueAddsOnly(jobs: Jobs, payload: JobPayload, now: int, other: JobPayload)
    requires JobsOk(jobs)
    ensures HasJob(Enqueue(jobs, payload, now), other) <==> HasJob(jobs, other) || other == payload
  {
    EnqueueKeepsJobs(jobs, payload, now);
    var after := Enqueue(jobs, payload, now);
    if id :| id in after.rows && after.rows[id].payload == other && other != payload {
      assert id in jobs.rows && jobs.rows[id].payload == other;
    }
  }

  lemma {:induction false} EnqueuedExactly(jobs: Jobs, pairs: seq<Key>, now: int, payload: JobPayload)
    requires JobsOk(jobs)
    ensures HasJob(EnqueuePairs(jobs, pairs, now), payload) <==>
              HasJob(jobs, payload) || exists k :: 0 <= k < |pairs| && payload == PairPayload(pairs[k])
  {
    hide HasJob, Enqueue, JobsOk;
    if pairs != [] {
      var init, last := pairs[..|pairs| - 1], pairs[|pairs| - 1];
      EnqueuedExactly(jobs, init, now, payload);
      EnqueuePairsKeepsJobs(jobs, init, now);
      EnqueueAddsOnly(EnqueuePairs(jobs, init, now), PairPayload(last), now, payload);
    }
  }

  /** The pairs that a seeding pass queues or refreshes. */
  function AcceptedPairs(jobs: Jobs, rows: Rows, now: int): set<Key> {
    set pair | pair in RecoverablePairs(rows) && EnqueueAccepted(jobs, PairPayload(pair), now)
  }

  function AcceptedAmong(jobs: Jobs, pairs: seq<Key>, now: int): (accepted: set<Key>)
    ensures forall pair :: pair in accepted <==> pair in pairs && EnqueueAccepted(jobs, PairPayload(pair), now)
  {
    if pairs == [] then {}
    else
      var last := pairs[|pairs| - 1];
      assert pairs == pairs[..|pairs| - 1] + [last];
      AcceptedAmong(jobs, pairs[..|pairs| - 1], now)
      + if EnqueueAccepted(jobs, PairPayload(last), now) then {last} else {}
  }

  lemma AcceptedStep(jobs: Jobs, pairs: seq<Key>, k: nat, now: int)
    requires k < |pairs| && pairs[k] !in pairs[..k]
    ensures |AcceptedAmong(jobs, pairs[..k + 1], now)|
         == |AcceptedAmong(jobs, pairs[..k], now)| + if EnqueueAccepted(jobs, PairPayload(pairs[k]), now) then 1 else 0
  {
    hide EnqueueAccepted;
    assert pairs[..k + 1][..k] == pairs[..k];
  }

  lemma AcceptedPairsAreAmong(jobs: Jobs, rows: Rows, pairs: seq<Key>, now: int)
    requires forall pair :: pair in pairs <==> pair in RecoverablePairs(rows)
    ensures AcceptedAmong(jobs, pairs, now) == AcceptedPairs(jobs, rows, now)
  {
    hide RecoverablePairs, EnqueueAccepted;
  }

  lemma NothingAccepted(jobs: Jobs, now: int)
    ensures AcceptedAmong(jobs, [], now) == {} && EnqueuePairs(jobs, [], now) == jobs
  {
  }

  /** What the seeding query lists: every recoverable pair once. */
  ghost predicate IsPairListing(rows: Rows, pairs: seq<Key>) {
    && (forall pair :: pair in pairs <==> pair in RecoverablePairs(rows))
    && (forall k :: 0 <= k < |pairs| ==> pairs[k].third == 0)
    && forall j, k :: 0 <= j < k < |pairs| ==> pairs[j] != pairs[k]
  }

  lemma SortedPairsAreListing(rows: Rows)
    ensures IsPairListing(rows, Sorted(RecoverablePairs(rows)))
  {
    var pairs := Sorted(RecoverablePairs(rows));
    SortedIsOrdered(RecoverablePairs(rows));
    hide Sorted;
    forall k | 0 <= k < |pairs|
      ensures pairs[k].third == 0
    {
      assert pairs[k] in pairs;
    }
    forall j, k | 0 <= j < k < |pairs|
      ensures pairs[j] != pairs[k]
    {
      assert Before(pairs[j], pairs[k]);
    }
  }

  /** The next pair is accepted exactly if it was when the pass began, and counts if so. */
  lemma SeedStep(jobs: Jobs, rows: Rows, pairs: seq<Key>, k: nat, now: int)
    requires JobsOk(jobs) && IsPairListing(rows, pairs) && k < |pairs|
    ensures EnqueueAccepted(EnqueuePairs(jobs, pairs[..k], now), PairPayload(pairs[k]), now)
         == EnqueueAccepted(jobs, PairPayload(pairs[k]), now)
    ensures |AcceptedAmong(jobs, pairs[..k + 1], now)|
         == |AcceptedAmong(jobs, pairs[..k], now)| + if EnqueueAccepted(jobs, PairPayload(pairs[k]), now) then 1 else 0
    ensures EnqueuePairs(jobs, pairs[..k + 1], now)
         == Enqueue(EnqueuePairs(jobs, pairs[..k], now), PairPayload(pairs[k]), now)
  {
    hide Enqueue, EnqueueAccepted, JobsOk, RecoverablePairs, AcceptedAmong;
    assert pairs[..k + 1][..k] == pairs[..k];
    LaterAcceptance(jobs, pairs[..k], pairs[k], now);
    AcceptedStep(jobs, pairs, k, now);
  }

  lemma SeedEnds(db: Db, pairs: seq<Key>, now: int)
    requires pairs == Sorted(RecoverablePairs(db.embeddings))
    ensures Seed(db, now) == db.(jobs := EnqueuePairs(db.jobs, pairs, now))
    ensures AcceptedAmong(db.jobs, pairs, now) == AcceptedPairs(db.jobs, db.embeddings, now)
  {
    SortedPairsAreListing(db.embeddings);
    hide Sorted, EnqueuePairs;
    AcceptedPairsAreAmong(db.jobs, db.embeddings, pairs, now);
  }

  // -------------------------------------------------------------------------
  // Repeating a pass
  // -------------------------------------------------------------------------

  lemma EnqueueSettles(jobs: Jobs, payload: JobPayload, now: int)
    requires JobsOk(jobs)
    ensures !EnqueueAccepted(Enqueue(jobs, payload, now), payload, now)
  {
    var after := Enqueue(jobs, payload, now);
    EnqueueKeepsJobs(jobs, payload, now);
    var id :| id in after.rows && after.rows[id].payload == payload;
    EnqueueOnConflict(after, id, payload, now);
    if HasJob(jobs, payload) {
      var queued :| queued in jobs.rows && jobs.rows[queued].payload == payload;
      assert after.rows[queued].payload == payload;
    }
  }

  lemma RejectedEnqueueIsNothing(jobs: Jobs, payload: JobPayload, now: int)
    requires JobsOk(jobs) && !EnqueueAccepted(jobs, payload, now)
    ensures Enqueue(jobs, payload, now) == jobs
  {
    var id :| id in jobs.rows && jobs.rows[id].payload == payload;
    EnqueueOnConflict(jobs, id, payload, now);
  }

  lemma {:induction false} SeedingSettles(jobs: Jobs, pairs: seq<Key>, k: nat, now: int)
    requires JobsOk(jobs) && k < |pairs|
    ensures !EnqueueAccepted(EnqueuePairs(jobs, pairs, now), PairPayload(pairs[k]), now)
  {
    var init, last := pairs[..|pairs| - 1], pairs[|pairs| - 1];
    var mid := EnqueuePairs(jobs, init, now);
    EnqueuePairsKeepsJobs(jobs, init, now);
    EnqueueSettles(mid, PairPayload(last), now);
    hide Enqueue, EnqueueAccepted, JobsOk;
    if PairPayload(pairs[k]) != PairPayload(last) {
      SeedingSettles(jobs, init, k, now);
      AcceptanceIsIndependent(mid, PairPayload(last), PairPayload(pairs[k]), now);
    }
  }

  lemma {:induction false} SettledSeedingIsNothing(jobs: Jobs, pairs: seq<Key>, now: int)
    requires JobsOk(jobs)
    requires forall k :: 0 <= k < |pairs| ==> !EnqueueAccepted(jobs, PairPayload(pairs[k]), now)
    ensures EnqueuePairs(jobs, pairs, now) == jobs
  {
    if pairs != [] {
      SettledSeedingIsNothing(jobs, pairs[..|pairs| - 1], now);
      RejectedEnqueueIsNothing(jobs, PairPayload(pairs[|pairs| - 1]), now);
    }
  }

  /** A second pass at the same clock queues nothing and counts nothing. */
  lemma SeedIsIdempotent(db: Db, now: int)
    requires JobsOk(db.jobs)
    ensures Seed(Seed(db, now), now) == Seed(db, now)
    ensures AcceptedPairs(Seed(db, now).jobs, db.embeddings, now) == {}
  {
    var pairs := Sorted(RecoverablePairs(db.embeddings));
    SortedIsOrdered(RecoverablePairs(db.embeddings));
    EnqueuePairsKeepsJobs(db.jobs, pairs, now);
    var once := EnqueuePairs(db.jobs, pairs, now);
    hide JobsOk, EnqueueAccepted, Sorted, RecoverablePairs;
    forall k | 0 <= k < |pairs|
      ensures !EnqueueAccepted(once, PairPayload(pairs[k]), now)
    {
      SeedingSettles(db.jobs, pairs, k, now);
    }
    SettledSeedingIsNothing(once, pairs, now);
  }
}
