/** The job queue: a lease protocol over claim timestamps. */
module JobQueue {
  import opened Prelude
  import opened Tables
  import opened Ordering

  const STALE_JOB_AGE_SECS: int := 86400

  type Jobs = Table<JobRow>

  // -------------------------------------------------------------------------
  // Operations
  // -------------------------------------------------------------------------

  predicate HasJob(jobs: Jobs, payload: JobPayload) {
    exists id :: id in jobs.rows && jobs.rows[id].payload == payload
  }

  /** The claim is missing, or older than the stale age. */
  predicate IsClaimable(job: JobRow, now: int) {
    job.claimedAt.None? || job.claimedAt.value < now - STALE_JOB_AGE_SECS
  }

  /** `ON CONFLICT ... DO UPDATE ... WHERE claimed_at < cutoff`: a NULL claim is not updated. */
  predicate IsRefreshed(job: JobRow, payload: JobPayload, now: int) {
    job.payload == payload && job.claimedAt.Some? && job.claimedAt.value < now - STALE_JOB_AGE_SECS
  }

  function EnqueueAccepted(jobs: Jobs, payload: JobPayload, now: int): bool {
    !HasJob(jobs, payload) || exists id :: id in jobs.rows && IsRefreshed(jobs.rows[id], payload, now)
  }

  function Enqueue(jobs: Jobs, payload: JobPayload, now: int): Jobs {
    if !HasJob(jobs, payload) then Insert(jobs, JobRow(payload, None, now))
    else Table(map id | id in jobs.rows ::
                 if IsRefreshed(jobs.rows[id], payload, now) then JobRow(payload, None, now) else jobs.rows[id],
               jobs.nextId)
  }

  function ClaimableKeys(jobs: Jobs, now: int): (keys: set<Key>)
    ensures forall id :: id in jobs.rows && IsClaimable(jobs.rows[id], now) <==> Key(id, 0, 0) in keys
    ensures forall key :: key in keys ==> key == Key(key.first, 0, 0)
  {
    set id | id in jobs.rows && IsClaimable(jobs.rows[id], now) :: Key(id, 0, 0)
  }

  /** `ORDER BY id ASC LIMIT 1` over the claimable rows. */
  function PickedJob(jobs: Jobs, now: int): (id: Option<int>)
    ensures id.None? ==> forall j :: j in jobs.rows ==> !IsClaimable(jobs.rows[j], now)
    ensures id.Some? ==> id.value in jobs.rows && IsClaimable(jobs.rows[id.value], now)
    ensures id.Some? ==> forall j :: j in jobs.rows && IsClaimable(jobs.rows[j], now) ==> id.value <= j
  {
    var keys := ClaimableKeys(jobs, now);
    if keys == {} then
      assert forall j :: j in jobs.rows && IsClaimable(jobs.rows[j], now) ==> Key(j, 0, 0) in keys;
      None
    else
      assert forall j :: j in jobs.rows && IsClaimable(jobs.rows[j], now) ==> AtMost(Least(keys), Key(j, 0, 0));
      Some(Least(keys).first)
  }

  function Claim(jobs: Jobs, now: int): Jobs {
    match PickedJob(jobs, now)
    case None => jobs
    case Some(id) => jobs.(rows := jobs.rows[id := jobs.rows[id].(claimedAt := Some(now))])
  }

  /** The synthetic claim time. The subtraction is signed, so a delay of 0 gives one second before
      the cutoff. */
  function DeferredClaim(now: int, retryAfterSecs: nat): int {
    now - STALE_JOB_AGE_SECS + (Min(retryAfterSecs, STALE_JOB_AGE_SECS) - 1)
  }

  function Defer(jobs: Jobs, jobId: int, now: int, retryAfterSecs: nat): Jobs {
    if jobId !in jobs.rows then jobs
    else jobs.(rows := jobs.rows[jobId := jobs.rows[jobId].(claimedAt := Some(DeferredClaim(now, retryAfterSecs)))])
  }

  function Complete(jobs: Jobs, jobId: int): Jobs {
    jobs.(rows := jobs.rows - {jobId})
  }

  // -------------------------------------------------------------------------
  // Keys and ids
  // -------------------------------------------------------------------------

  ghost predicate JobsOk(jobs: Jobs) {
    && IdsBelow(jobs)
    && forall i, j :: i in jobs.rows && j in jobs.rows && jobs.rows[i].payload == jobs.rows[j].payload ==> i == j
  }

  lemma EnqueueKeepsJobs(jobs: Jobs, payload: JobPayload, now: int)
    requires JobsOk(jobs)
    ensures JobsOk(Enqueue(jobs, payload, now))
    ensures HasJob(Enqueue(jobs, payload, now), payload)
    ensures jobs.nextId <= Enqueue(jobs, payload, now).nextId
    ensures forall p :: HasJob(jobs, p) ==> HasJob(Enqueue(jobs, payload, now), p)
  {
    var after := Enqueue(jobs, payload, now);
    if !HasJob(jobs, payload) {
      assert after.rows[jobs.nextId].payload == payload;
    }
    forall id | id in jobs.rows
      ensures id in after.rows && after.rows[id].payload == jobs.rows[id].payload
    {
    }
    forall p | HasJob(jobs, p)
      ensures HasJob(after, p)
    {
      var id :| id in jobs.rows && jobs.rows[id].payload == p;
      assert after.rows[id].payload == p;
    }
  }

  // -------------------------------------------------------------------------
  // Lease safety
  // -------------------------------------------------------------------------

  datatype QueueOp =
    | EnqueueOp(payload: JobPayload, now: int)
    | ClaimOp(now: int)
    | DeferOp(jobId: int, now: int, retryAfterSecs: nat)
    | CompleteOp(jobId: int)

  function ApplyOp(jobs: Jobs, op: QueueOp): Jobs {
    match op
    case EnqueueOp(payload, now) => Enqueue(jobs, payload, now)
    case ClaimOp(now) => Claim(jobs, now)
    case DeferOp(jobId, now, retryAfterSecs) => Defer(jobs, jobId, now, retryAfterSecs)
    case CompleteOp(jobId) => Complete(jobs, jobId)
  }

  function ApplyOps(jobs: Jobs, ops: seq<QueueOp>): Jobs
    decreases |ops|
  {
    if ops == [] then jobs else ApplyOps(ApplyOp(jobs, ops[0]), ops[1..])
  }

  /** The operation does not end the lease on `jobId`, and its clock is at most `latest`. */
  predicate RespectsLease(op: QueueOp, jobId: int, latest: int) {
    match op
    case EnqueueOp(_, now) => now <= latest
    case ClaimOp(now) => now <= latest
    case DeferOp(id, _, _) => id != jobId
    case CompleteOp(id) => id != jobId
  }

  /** The row that carries claim time `t` is untouched by any run of operations, on any clocks up to `t + 86400`, that
      neither completes nor defers it; and any clock from `t + 86401` on may claim it. */
  lemma {:induction false} LeaseHolds(jobs: Jobs, jobId: int, t: int, ops: seq<QueueOp>)
    requires jobId in jobs.rows && jobs.rows[jobId].claimedAt == Some(t) && jobId < jobs.nextId
    requires forall k :: 0 <= k < |ops| ==> RespectsLease(ops[k], jobId, t + STALE_JOB_AGE_SECS)
    decreases |ops|
    ensures var after := ApplyOps(jobs, ops);
            && jobId in after.rows && after.rows[jobId] == jobs.rows[jobId]
            && forall clock :: IsClaimable(after.rows[jobId], clock) <==> clock > t + STALE_JOB_AGE_SECS
  {
    if ops != [] {
      assert RespectsLease(ops[0], jobId, t + STALE_JOB_AGE_SECS);
      var next := ApplyOp(jobs, ops[0]);
      assert jobId in next.rows && next.rows[jobId] == jobs.rows[jobId] && jobId < next.nextId;
      forall k | 0 <= k < |ops[1..]|
        ensures RespectsLease(ops[1..][k], jobId, t + STALE_JOB_AGE_SECS)
      {
        assert ops[1..][k] == ops[k + 1];
      }
      LeaseHolds(next, jobId, t, ops[1..]);
    }
  }

  /** The lease begins with a claim: the claimed row is the least claimable id and carries the clock. */
  lemma ClaimStartsLease(jobs: Jobs, now: int)
    ensures match PickedJob(jobs, now)
            case None => Claim(jobs, now) == jobs && forall id :: id in jobs.rows ==> !IsClaimable(jobs.rows[id], now)
            case Some(id) =>
              && id in jobs.rows && IsClaimable(jobs.rows[id], now)
              && (forall j :: j in jobs.rows && IsClaimable(jobs.rows[j], now) ==> id <= j)
              && Claim(jobs, now).rows[id] == jobs.rows[id].(claimedAt := Some(now))
              && !IsClaimable(Claim(jobs, now).rows[id], now)
              && (forall j :: j in jobs.rows && j != id ==> Claim(jobs, now).rows[j] == jobs.rows[j])
              && Claim(jobs, now).rows.Keys == jobs.rows.Keys
  {
  }

  /** Claiming hands out the least claimable id, if any, and from then on no other worker on a clock
      up to `t + 86400` gets or changes the job before it is completed or deferred. */
  lemma ClaimedJobIsLeased(jobs: Jobs, t: int, ops: seq<QueueOp>)
    requires IdsBelow(jobs) && PickedJob(jobs, t).Some?
    requires forall k :: 0 <= k < |ops| ==> RespectsLease(ops[k], PickedJob(jobs, t).value, t + STALE_JOB_AGE_SECS)
    ensures var id := PickedJob(jobs, t).value;
            var after := ApplyOps(Claim(jobs, t), ops);
            && IsClaimable(jobs.rows[id], t)
            && id in after.rows && after.rows[id] == jobs.rows[id].(claimedAt := Some(t))
            && (forall clock :: IsClaimable(after.rows[id], clock) <==> clock > t + STALE_JOB_AGE_SECS)
  {
    LeaseHolds(Claim(jobs, t), PickedJob(jobs, t).value, t, ops);
  }

  /** Retry arithmetic: claimable from exactly `now + min(r, 86400)` on, for every delay including 0. */
  lemma DeferIsExact(jobs: Jobs, jobId: int, now: int, retryAfterSecs: nat, clock: int)
    requires jobId in jobs.rows
    ensures IsClaimable(Defer(jobs, jobId, now, retryAfterSecs).rows[jobId], clock)
            <==> clock >= now + Min(retryAfterSecs, STALE_JOB_AGE_SECS)
    ensures Defer(jobs, jobId, now, retryAfterSecs).rows - {jobId} == jobs.rows - {jobId}
  {
  }

  // -------------------------------------------------------------------------
  // Drain
  // -------------------------------------------------------------------------

  /** The ids returned by claiming again and again at one clock. */
  function Drained(jobs: Jobs, now: int): seq<int>
    decreases |ClaimableKeys(jobs, now)|
  {
    match PickedJob(jobs, now)
    case None => []
    case Some(id) =>
      ClaimShrinks(jobs, now);
      [id] + Drained(Claim(jobs, now), now)
  }

  lemma ClaimShrinks(jobs: Jobs, now: int)
    requires PickedJob(jobs, now).Some?
    ensures ClaimableKeys(Claim(jobs, now), now) == ClaimableKeys(jobs, now) - {Key(PickedJob(jobs, now).value, 0, 0)}
    ensures |ClaimableKeys(Claim(jobs, now), now)| < |ClaimableKeys(jobs, now)|
  {
    var id := PickedJob(jobs, now).value;
    var before, after := ClaimableKeys(jobs, now), ClaimableKeys(Claim(jobs, now), now);
    forall key
      ensures key in after <==> key in before - {Key(id, 0, 0)}
    {
      assert key in after ==> key == Key(key.first, 0, 0);
      assert key in before ==> key == Key(key.first, 0, 0);
    }
    assert after == before - {Key(id, 0, 0)};
  }

  /** Draining returns every claimable job, each once, in ascending id order. */
  lemma {:induction false} DrainIsComplete(jobs: Jobs, now: int)
    ensures var ids := Drained(jobs, now);
            && (forall id :: id in ids <==> id in jobs.rows && IsClaimable(jobs.rows[id], now))
            && (forall j, k :: 0 <= j < k < |ids| ==> ids[j] < ids[k])
    decreases |ClaimableKeys(jobs, now)|
  {
    var ids := Drained(jobs, now);
    if PickedJob(jobs, now).Some? {
      ClaimStartsLease(jobs, now);
      ClaimShrinks(jobs, now);
      var next := Claim(jobs, now);
      DrainIsComplete(next, now);
      var rest := Drained(next, now);
      hide IsClaimable, Claim, PickedJob;
      forall k | 0 <= k < |rest|
        ensures ids[0] < rest[k]
      {
        assert rest[k] in rest;
      }
    }
  }
}
