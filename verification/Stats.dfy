/** The embedding statistics page: document counts read from the tables and the queue. */
module Stats {
  import opened Prelude
  import opened Types
  import opened Tables
  import opened Ordering
  import opened JobQueue
  import opened StoreSpec
  import opened StoreInvariant
  import opened StoreRuns

  const FAILED_LOCKOUT_SECS: int := 86400
  const RECENT_RATE_WINDOW_SECS: int := 300

  // -------------------------------------------------------------------------
  // Queries
  // -------------------------------------------------------------------------

  function StateDocs(rows: Rows, modelId: int, state: EmbedState, createdAfter: Option<int>): set<Key> {
    set id | id in rows.rows && rows.rows[id].modelId == modelId && rows.rows[id].state == state
             && (createdAfter.Some? ==> rows.rows[id].createdAt >= createdAfter.value) ::
      Key(rows.rows[id].documentId, 0, 0)
  }

  /** Documents with a row of the model in one of the states. */
  function DocsInStates(rows: Rows, modelId: int, states: seq<EmbedState>): set<int> {
    set id | id in rows.rows && rows.rows[id].modelId == modelId && rows.rows[id].state in states ::
      rows.rows[id].documentId
  }

  function RecentDocs(rows: Rows, modelId: int, createdAfter: int): set<int> {
    set id | id in rows.rows && rows.rows[id].modelId == modelId && rows.rows[id].state == Embedded
             && rows.rows[id].createdAt >= createdAfter ::
      rows.rows[id].documentId
  }

  predicate IsLocked(job: JobRow, claimedAfter: int) {
    job.claimedAt.Some? && job.claimedAt.value >= claimedAfter
  }

  function LockedEmbedJobs(jobs: Jobs, claimedAfter: int): set<Key> {
    set id | id in jobs.rows && jobs.rows[id].payload.EmbedDocument? && IsLocked(jobs.rows[id], claimedAfter) ::
      Key(id, 0, 0)
  }

  function ClaimedDocs(jobs: Jobs, modelId: int, claimedAfter: int): set<int> {
    set id | id in jobs.rows && jobs.rows[id].payload.EmbedDocument? && IsLocked(jobs.rows[id], claimedAfter)
             && jobs.rows[id].payload.modelId == modelId ::
      jobs.rows[id].payload.documentId
  }

  method LoadDistinctDocumentIds(rows: Rows, modelId: int, states: seq<EmbedState>) returns (documentIds: set<int>)
    ensures documentIds == DocsInStates(rows, modelId, states)
  {
    documentIds := {};
    for s := 0 to |states|
      invariant documentIds == DocsInStates(rows, modelId, states[..s])
    {
      ghost var before := documentIds;
      var found := Sorted(StateDocs(rows, modelId, states[s], None));
      SortedIsOrdered(StateDocs(rows, modelId, states[s], None));
      hide Sorted;
      for k := 0 to |found|
        invariant documentIds == before + set j | 0 <= j < k :: found[j].first
      {
        documentIds := documentIds + {found[k].first};
      }
      OneMoreState(rows, modelId, states, s, found);
    }
    assert states[..|states|] == states;
  }

  lemma OneMoreState(rows: Rows, modelId: int, states: seq<EmbedState>, s: nat, found: seq<Key>)
    requires s < |states|
    requires forall key :: key in found <==> key in StateDocs(rows, modelId, states[s], None)
    ensures DocsInStates(rows, modelId, states[..s + 1])
         == DocsInStates(rows, modelId, states[..s]) + set j | 0 <= j < |found| :: found[j].first
  {
    var docs := set j | 0 <= j < |found| :: found[j].first;
    var before, after := states[..s], states[..s + 1];
    assert after == before + [states[s]];
    forall doc | doc in DocsInStates(rows, modelId, after)
      ensures doc in DocsInStates(rows, modelId, before) + docs
    {
      var id :| id in rows.rows && rows.rows[id].modelId == modelId && rows.rows[id].state in after
                && rows.rows[id].documentId == doc;
      if rows.rows[id].state == states[s] {
        assert Key(doc, 0, 0) in StateDocs(rows, modelId, states[s], None);
        assert Key(doc, 0, 0) in found;
      }
    }
    forall j | 0 <= j < |found|
      ensures found[j].first in DocsInStates(rows, modelId, after)
    {
      assert found[j] in found;
    }
  }

  method LoadClaimedEmbedDocumentIds(jobs: Jobs, modelId: int, claimedAfter: int) returns (documentIds: set<int>)
    ensures documentIds == ClaimedDocs(jobs, modelId, claimedAfter)
  {
    documentIds := {};
    var found := Sorted(LockedEmbedJobs(jobs, claimedAfter));
    SortedIsOrdered(LockedEmbedJobs(jobs, claimedAfter));
    hide Sorted;
    assert forall k :: 0 <= k < |found| ==> found[k] in LockedEmbedJobs(jobs, claimedAfter);
    for k := 0 to |found|
      invariant documentIds == set j | 0 <= j < k && jobs.rows[found[j].first].payload.modelId == modelId ::
                                 jobs.rows[found[j].first].payload.documentId
    {
      var payload := jobs.rows[found[k].first].payload;
      if payload.modelId == modelId {
        documentIds := documentIds + {payload.documentId};
      }
    }
    forall doc | doc in ClaimedDocs(jobs, modelId, claimedAfter)
      ensures doc in documentIds
    {
      var id :| id in jobs.rows && jobs.rows[id].payload.EmbedDocument? && IsLocked(jobs.rows[id], claimedAfter)
                && jobs.rows[id].payload.modelId == modelId && jobs.rows[id].payload.documentId == doc;
      assert Key(id, 0, 0) in LockedEmbedJobs(jobs, claimedAfter);
      assert Key(id, 0, 0) in found;
    }
  }

  // -------------------------------------------------------------------------
  // Row counts
  // -------------------------------------------------------------------------

  function ModelRows(rows: Rows, modelId: int): set<int> {
    set id | id in rows.rows && rows.rows[id].modelId == modelId
  }

  function ModelRowsIn(rows: Rows, modelId: int, state: EmbedState): set<int> {
    set id | id in rows.rows && rows.rows[id].modelId == modelId && rows.rows[id].state == state
  }

  datatype RowCounts = RowCounts(total: nat, embedded: nat, pending: nat, stale: nat)

  datatype StatsError = NullSum

  /** A sum over no rows is NULL, which cannot be read as an integer. */
  function LoadRowCounts(rows: Rows, modelId: int): Result<RowCounts, StatsError> {
    if ModelRows(rows, modelId) == {} then Failure(NullSum)
    else Success(RowCounts(|ModelRows(rows, modelId)|, |ModelRowsIn(rows, modelId, Embedded)|,
                           |ModelRowsIn(rows, modelId, Pending)|, |ModelRowsIn(rows, modelId, Stale)|))
  }

  lemma DisjointCount(x: set<int>, y: set<int>)
    requires x !! y
    ensures |x + y| == |x| + |y|
  {
  }

  predicate IsRowOfModel(row: EmbeddingRow, modelId: int, state: EmbedState) {
    row.modelId == modelId && row.state == state
  }

  /** Each row of the model is counted under its own state. */
  lemma RowCountsMean(rows: Rows, modelId: int)
    requires LoadRowCounts(rows, modelId).Success?
    ensures var counts := LoadRowCounts(rows, modelId).value;
            && counts.embedded == |set id | id in rows.rows && IsRowOfModel(rows.rows[id], modelId, Embedded)|
            && counts.pending == |set id | id in rows.rows && IsRowOfModel(rows.rows[id], modelId, Pending)|
            && counts.stale == |set id | id in rows.rows && IsRowOfModel(rows.rows[id], modelId, Stale)|
  {
    RowsInState(rows, modelId, Embedded);
    RowsInState(rows, modelId, Pending);
    RowsInState(rows, modelId, Stale);
    hide ModelRowsIn, IsRowOfModel;
  }

  lemma RowsInState(rows: Rows, modelId: int, state: EmbedState)
    ensures ModelRowsIn(rows, modelId, state) == set id | id in rows.rows && IsRowOfModel(rows.rows[id], modelId, state)
  {
  }

  /** The three states account for every row of the model. */
  lemma RowCountsAddUp(rows: Rows, modelId: int)
    requires LoadRowCounts(rows, modelId).Success?
    ensures var counts := LoadRowCounts(rows, modelId).value;
            counts.embedded + counts.pending + counts.stale == counts.total > 0
  {
    var e, p := ModelRowsIn(rows, modelId, Embedded), ModelRowsIn(rows, modelId, Pending);
    var s := ModelRowsIn(rows, modelId, Stale);
    forall id | id in ModelRows(rows, modelId)
      ensures id in e + p + s
    {
      match rows.rows[id].state
      case Embedded =>
      case Pending =>
      case Stale =>
    }
    assert ModelRows(rows, modelId) == e + p + s;
    DisjointCount(e, p);
    DisjointCount(e + p, s);
  }

  // -------------------------------------------------------------------------
  // File types
  // -------------------------------------------------------------------------

  datatype FileTypeCount = FileTypeCount(fileType: string, documentCount: nat)

  /** `ORDER BY` on text: by the first difference, shorter first. */
  predicate TextBefore(x: string, y: string) {
    y != "" && (x == "" || x[0] < y[0] || (x[0] == y[0] && TextBefore(x[1..], y[1..])))
  }

  lemma {:induction false} TextOrderIsTotal(x: string, y: string)
    ensures TextBefore(x, y) || TextBefore(y, x) || x == y
    ensures !(TextBefore(x, y) && TextBefore(y, x)) && !TextBefore(x, x)
  {
    if x != "" {
      TextOrderIsTotal(x[1..], if y == "" then "" else y[1..]);
      if y != "" && x[0] == y[0] && x[1..] == y[1..] { assert x == [x[0]] + x[1..] && y == [y[0]] + y[1..]; }
    }
  }

  lemma {:induction false} TextOrderIsTransitive(x: string, y: string, z: string)
    requires TextBefore(x, y) && TextBefore(y, z)
    ensures TextBefore(x, z)
  {
    if x != "" && x[0] == y[0] == z[0] { TextOrderIsTransitive(x[1..], y[1..], z[1..]); }
  }

  function DocsOfType(documents: Table<Document>, fileType: string): set<int> {
    set id | id in documents.rows && documents.rows[id].details.fileType == fileType
  }

  function FileTypes(documents: Table<Document>): set<string> {
    set id | id in documents.rows :: documents.rows[id].details.fileType
  }

  ghost predicate InTextOrder(counts: seq<FileTypeCount>) {
    forall j, k :: 0 <= j < k < |counts| ==> TextBefore(counts[j].fileType, counts[k].fileType)
  }

  ghost predicate CountsTypes(documents: Table<Document>, types: set<string>, counts: seq<FileTypeCount>) {
    && InTextOrder(counts)
    && (forall k :: 0 <= k < |counts| ==>
          counts[k].fileType in types && counts[k].documentCount == |DocsOfType(documents, counts[k].fileType)|)
    && (forall fileType :: fileType in types ==> exists k :: 0 <= k < |counts| && counts[k].fileType == fileType)
  }

  /** `GROUP BY` file type, ordered by file type. */
  method LoadDocumentFileTypeCounts(documents: Table<Document>) returns (counts: seq<FileTypeCount>)
    ensures CountsTypes(documents, FileTypes(documents), counts)
  {
    counts := [];
    var left := FileTypes(documents);
    while left != {}
      invariant left <= FileTypes(documents)
      invariant CountsTypes(documents, FileTypes(documents) - left, counts)
    {
      var fileType :| fileType in left;
      var k := 0;
      while k < |counts| && TextBefore(counts[k].fileType, fileType)
        invariant 0 <= k <= |counts|
        invariant forall j :: 0 <= j < k ==> TextBefore(counts[j].fileType, fileType)
      {
        k := k + 1;
      }
      TypeInserted(documents, FileTypes(documents) - left, counts, fileType, k);
      counts := counts[..k] + [FileTypeCount(fileType, |DocsOfType(documents, fileType)|)] + counts[k..];
      left := left - {fileType};
      assert FileTypes(documents) - left == FileTypes(documents) - (left + {fileType}) + {fileType};
    }
    assert FileTypes(documents) - {} == FileTypes(documents);
  }

  lemma InsertKeepsTextOrder(counts: seq<FileTypeCount>, count: FileTypeCount, k: nat)
    requires InTextOrder(counts) && k <= |counts|
    requires forall j :: 0 <= j < k ==> TextBefore(counts[j].fileType, count.fileType)
    requires k < |counts| ==> counts[k].fileType != count.fileType && !TextBefore(counts[k].fileType, count.fileType)
    ensures InTextOrder(counts[..k] + [count] + counts[k..])
  {
    hide TextBefore;
    forall j | k <= j < |counts|
      ensures TextBefore(count.fileType, counts[j].fileType)
    {
      TextOrderIsTotal(count.fileType, counts[k].fileType);
      if j > k { TextOrderIsTransitive(count.fileType, counts[k].fileType, counts[j].fileType); }
    }
  }

  lemma InsertedCounts(counts: seq<FileTypeCount>, count: FileTypeCount, k: nat)
    requires k <= |counts|
    ensures forall x :: x in counts[..k] + [count] + counts[k..] ==> x in counts || x == count
  {
  }

  lemma TypeInserted(documents: Table<Document>, types: set<string>, counts: seq<FileTypeCount>, fileType: string,
                     k: nat)
    requires CountsTypes(documents, types, counts) && fileType !in types && k <= |counts|
    requires forall j :: 0 <= j < k ==> TextBefore(counts[j].fileType, fileType)
    requires k < |counts| ==> !TextBefore(counts[k].fileType, fileType)
    ensures CountsTypes(documents, types + {fileType},
                        counts[..k] + [FileTypeCount(fileType, |DocsOfType(documents, fileType)|)] + counts[k..])
  {
    var count := FileTypeCount(fileType, |DocsOfType(documents, fileType)|);
    InsertKeepsTextOrder(counts, count, k);
    hide InTextOrder, DocsOfType;
    var after := counts[..k] + [count] + counts[k..];
    InsertedCounts(counts, count, k);
    forall i | 0 <= i < |after|
      ensures after[i].fileType in types + {fileType}
      ensures after[i].documentCount == |DocsOfType(documents, after[i].fileType)|
    {
      assert after[i] in after;
    }
    forall t | t in types + {fileType}
      ensures exists i :: 0 <= i < |after| && after[i].fileType == t
    {
      if t == fileType {
        assert after[k].fileType == t;
      } else {
        var i :| 0 <= i < |counts| && counts[i].fileType == t;
        assert after[if i < k then i else i + 1].fileType == t;
      }
    }
  }

  function SumOfCounts(counts: seq<FileTypeCount>): nat {
    if counts == [] then 0 else SumOfCounts(counts[..|counts| - 1]) + counts[|counts| - 1].documentCount
  }

  function DocsOfTypes(documents: Table<Document>, counts: seq<FileTypeCount>): set<int> {
    set id | id in documents.rows
             && exists k :: 0 <= k < |counts| && counts[k].fileType == documents.rows[id].details.fileType
  }

  lemma {:induction false} SumIsCount(documents: Table<Document>, types: set<string>, counts: seq<FileTypeCount>)
    requires CountsTypes(documents, types, counts)
    ensures SumOfCounts(counts) == |DocsOfTypes(documents, counts)|
  {
    if counts == [] {
      assert DocsOfTypes(documents, counts) == {};
    } else {
      var init, last := counts[..|counts| - 1], counts[|counts| - 1];
      TextOrderIsTotal(last.fileType, last.fileType);
      InitCounts(documents, types, counts);
      SumIsCount(documents, types - {last.fileType}, init);
      OneMoreType(documents, counts);
      DisjointCount(DocsOfTypes(documents, init), DocsOfType(documents, last.fileType));
    }
  }

  lemma InitCounts(documents: Table<Document>, types: set<string>, counts: seq<FileTypeCount>)
    requires CountsTypes(documents, types, counts) && counts != []
    ensures CountsTypes(documents, types - {counts[|counts| - 1].fileType}, counts[..|counts| - 1])
    ensures forall k :: 0 <= k < |counts| - 1 ==> counts[k].fileType != counts[|counts| - 1].fileType
  {
    hide TextBefore, DocsOfType;
    var init, last := counts[..|counts| - 1], counts[|counts| - 1];
    forall k | 0 <= k < |init|
      ensures init[k].fileType != last.fileType
    {
      TextOrderIsTotal(init[k].fileType, last.fileType);
    }
    forall t | t in types - {last.fileType}
      ensures exists k :: 0 <= k < |init| && init[k].fileType == t
    {
      var k :| 0 <= k < |counts| && counts[k].fileType == t;
      assert init[k].fileType == t;
    }
  }

  lemma OneMoreType(documents: Table<Document>, counts: seq<FileTypeCount>)
    requires counts != [] && forall k :: 0 <= k < |counts| - 1 ==> counts[k].fileType != counts[|counts| - 1].fileType
    ensures var init, last := counts[..|counts| - 1], counts[|counts| - 1].fileType;
            && DocsOfTypes(documents, counts) == DocsOfTypes(documents, init) + DocsOfType(documents, last)
            && DocsOfTypes(documents, init) !! DocsOfType(documents, last)
  {
    var init, last := counts[..|counts| - 1], counts[|counts| - 1];
    assert counts == init + [last];
  }

  /** The counts by file type add up to all documents. */
  lemma FileTypeCountsAddUp(documents: Table<Document>, counts: seq<FileTypeCount>)
    requires CountsTypes(documents, FileTypes(documents), counts)
    ensures SumOfCounts(counts) == |documents.rows|
  {
    SumIsCount(documents, FileTypes(documents), counts);
    forall id | id in documents.rows.Keys
      ensures id in DocsOfTypes(documents, counts)
    {
      assert documents.rows[id].details.fileType in FileTypes(documents);
    }
    assert DocsOfTypes(documents, counts) == documents.rows.Keys;
    assert |documents.rows.Keys| == |documents.rows|;
  }

  // -------------------------------------------------------------------------
  // The snapshot
  // -------------------------------------------------------------------------

  datatype Snapshot = Snapshot(
    total: nat, embedded: nat, failedLocked: nat, remaining: int, embeddedRecently: nat,
    fileTypes: seq<FileTypeCount>, rows: RowCounts)

  function Recoverable(db: Db, modelId: int): set<int> {
    DocsInStates(db.embeddings, modelId, [Pending, Stale])
  }

  function FullyEmbedded(db: Db, modelId: int): set<int> {
    DocsInStates(db.embeddings, modelId, [Embedded]) - Recoverable(db, modelId)
  }

  function FailedLocked(db: Db, modelId: int, now: int): set<int> {
    Recoverable(db, modelId) * ClaimedDocs(db.jobs, modelId, now - FAILED_LOCKOUT_SECS)
  }

  /** The subtraction saturates only at the bounds of a signed 64-bit integer, which no count reaches. */
  method LoadEmbeddingStatsSnapshot(db: Db, modelId: int, now: int) returns (r: Result<Snapshot, StatsError>)
    ensures r.Failure? <==> ModelRows(db.embeddings, modelId) == {}
    ensures r.Success? ==>
              && r.value.total == |db.documents.rows|
              && r.value.embedded == |FullyEmbedded(db, modelId)|
              && r.value.failedLocked == |FailedLocked(db, modelId, now)|
              && r.value.remaining == r.value.total - r.value.embedded - r.value.failedLocked
              && r.value.embeddedRecently
                 == |RecentDocs(db.embeddings, modelId, now - RECENT_RATE_WINDOW_SECS) - Recoverable(db, modelId)|
              && CountsTypes(db.documents, FileTypes(db.documents), r.value.fileTypes)
              && LoadRowCounts(db.embeddings, modelId) == Success(r.value.rows)
  {
    var staleCutoff := now - FAILED_LOCKOUT_SECS;
    var recentWindowStart := now - RECENT_RATE_WINDOW_SECS;
    var totalDocuments := |db.documents.rows|;
    var recoverable := LoadDistinctDocumentIds(db.embeddings, modelId, [Pending, Stale]);
    var embedded := LoadDistinctDocumentIds(db.embeddings, modelId, [Embedded]);
    var claimed := LoadClaimedEmbedDocumentIds(db.jobs, modelId, staleCutoff);
    var recent := RecentDocs(db.embeddings, modelId, recentWindowStart);
    var fileTypes := LoadDocumentFileTypeCounts(db.documents);
    hide DocsInStates, ClaimedDocs, ModelRows, ModelRowsIn, RecentDocs, CountsTypes, FileTypes;
    var counts := LoadRowCounts(db.embeddings, modelId);
    if counts.Failure? {
      return Failure(counts.error);
    }
    var failedLocked := |recoverable * claimed|;
    var embeddedOnly := |embedded - recoverable|;
    var remaining := totalDocuments - embeddedOnly - failedLocked;
    return Success(Snapshot(totalDocuments, embeddedOnly, failedLocked, remaining, |recent - recoverable|, fileTypes,
                            counts.value));
  }

  // -------------------------------------------------------------------------
  // Conservation
  // -------------------------------------------------------------------------

  /** The lock that the page reports is the exact complement of what a worker may claim. */
  lemma LockIsComplementOfClaim(job: JobRow, now: int)
    ensures IsLocked(job, now - FAILED_LOCKOUT_SECS) <==> !IsClaimable(job, now)
  {
  }

  /** Documents that neither count takes. */
  function Remaining(db: Db, modelId: int, now: int): set<int> {
    db.documents.rows.Keys - FullyEmbedded(db, modelId) - FailedLocked(db, modelId, now)
  }

  ghost predicate RowsReferToDocuments(db: Db) {
    forall id :: id in db.embeddings.rows ==> db.embeddings.rows[id].documentId in db.documents.rows
  }

  ghost predicate IsRowOf(rows: Rows, id: int, docId: int, modelId: int, state: EmbedState) {
    id in rows.rows && IsPair(rows.rows[id], docId, modelId) && rows.rows[id].state == state
  }

  /** A document counts as embedded when it has rows of the model and all are Embedded, as failed when some
      row is not and its own embed job for the model is claimed and not yet claimable again, and as recent
      when an Embedded row of the model is at most five minutes old. */
  lemma GroupsMean(db: Db, modelId: int, now: int, docId: int)
    ensures docId in FullyEmbedded(db, modelId) <==>
              && (exists id :: IsRowOf(db.embeddings, id, docId, modelId, Embedded))
              && forall id :: !IsRowOf(db.embeddings, id, docId, modelId, Pending)
                              && !IsRowOf(db.embeddings, id, docId, modelId, Stale)
    ensures docId in FailedLocked(db, modelId, now) <==>
              && (exists id :: IsRowOf(db.embeddings, id, docId, modelId, Pending)
                               || IsRowOf(db.embeddings, id, docId, modelId, Stale))
              && exists jobId :: IsOwnLockedJob(db, jobId, docId, modelId, now)
    ensures docId in RecentDocs(db.embeddings, modelId, now - RECENT_RATE_WINDOW_SECS) <==>
              exists id :: IsRowOf(db.embeddings, id, docId, modelId, Embedded)
                           && db.embeddings.rows[id].createdAt + 300 >= now
  {
    InStates(db.embeddings, modelId, docId);
    hide DocsInStates;
    forall jobId
      ensures IsOwnLockedJob(db, jobId, docId, modelId, now) <==>
              && jobId in db.jobs.rows && db.jobs.rows[jobId].payload == EmbedDocument(docId, modelId)
              && IsLocked(db.jobs.rows[jobId], now - FAILED_LOCKOUT_SECS)
    {
    }
  }

  ghost predicate IsOwnLockedJob(db: Db, jobId: int, docId: int, modelId: int, now: int) {
    && jobId in db.jobs.rows && db.jobs.rows[jobId].payload == EmbedDocument(docId, modelId)
    && !IsClaimable(db.jobs.rows[jobId], now)
  }

  lemma InStates(rows: Rows, modelId: int, docId: int)
    ensures docId in DocsInStates(rows, modelId, [Embedded]) <==>
              exists id :: IsRowOf(rows, id, docId, modelId, Embedded)
    ensures docId in DocsInStates(rows, modelId, [Pending, Stale]) <==>
              exists id :: IsRowOf(rows, id, docId, modelId, Pending) || IsRowOf(rows, id, docId, modelId, Stale)
  {
    if docId in DocsInStates(rows, modelId, [Embedded]) {
      var id :| id in rows.rows && rows.rows[id].modelId == modelId && rows.rows[id].state in [Embedded]
                && rows.rows[id].documentId == docId;
      assert IsRowOf(rows, id, docId, modelId, Embedded);
    }
    if docId in DocsInStates(rows, modelId, [Pending, Stale]) {
      var id :| id in rows.rows && rows.rows[id].modelId == modelId && rows.rows[id].state in [Pending, Stale]
                && rows.rows[id].documentId == docId;
      assert IsRowOf(rows, id, docId, modelId, Pending) || IsRowOf(rows, id, docId, modelId, Stale);
    }
    forall id
      ensures IsRowOf(rows, id, docId, modelId, Embedded) ==> docId in DocsInStates(rows, modelId, [Embedded])
      ensures IsRowOf(rows, id, docId, modelId, Pending) || IsRowOf(rows, id, docId, modelId, Stale) ==>
                docId in DocsInStates(rows, modelId, [Pending, Stale])
    {
      assert Embedded in [Embedded] && Pending in [Pending, Stale] && Stale in [Pending, Stale];
    }
  }

  /** With the foreign keys, embedded, failed and remaining documents are three disjoint sets that make
      up all documents; so the remaining count is a count, and never negative. */
  lemma SnapshotConserves(db: Db, modelId: int, now: int)
    requires RowsReferToDocuments(db)
    ensures FullyEmbedded(db, modelId) !! FailedLocked(db, modelId, now)
    ensures FullyEmbedded(db, modelId) + FailedLocked(db, modelId, now) + Remaining(db, modelId, now)
         == db.documents.rows.Keys
    ensures |FullyEmbedded(db, modelId)| + |FailedLocked(db, modelId, now)| + |Remaining(db, modelId, now)|
         == |db.documents.rows|
  {
    var e, f, r := FullyEmbedded(db, modelId), FailedLocked(db, modelId, now), Remaining(db, modelId, now);
    assert e <= db.documents.rows.Keys && f <= db.documents.rows.Keys;
    assert e + f + r == db.documents.rows.Keys;
    DisjointCount(e, f);
    DisjointCount(e + f, r);
    assert |db.documents.rows.Keys| == |db.documents.rows|;
  }

  /** In every reachable state the page's numbers add up, and every row of a document that counts as
      embedded is Embedded. */
  lemma ReachableStats(sys: Sys, modelId: int, now: int)
    requires IsReachable(sys)
    ensures RowsReferToDocuments(sys.db)
    ensures FullyEmbedded(sys.db, modelId) == DocsInStates(sys.db.embeddings, modelId, [Embedded])
    ensures |FullyEmbedded(sys.db, modelId)| + |FailedLocked(sys.db, modelId, now)| <= |sys.db.documents.rows|
  {
    hide IsReachable, PhaseOk, JobsOk, PathsUnique, ModelsOk, VecSound, DocsInStates, ClaimedDocs, RowsSound;
    ReachableIsSound(sys);
    SoundRowsRefer(sys.db);
    SnapshotConserves(sys.db, modelId, now);
    HomogeneousDocs(sys.db.embeddings, modelId);
  }

  lemma SoundRowsRefer(db: Db)
    requires RowsSound(db)
    ensures RowsReferToDocuments(db)
  {
    forall id | id in db.embeddings.rows
      ensures db.embeddings.rows[id].documentId in db.documents.rows
    {
      assert RowIsSound(db, db.embeddings.rows[id]);
    }
  }

  lemma HomogeneousDocs(rows: Rows, modelId: int)
    requires Homogeneous(rows)
    ensures DocsInStates(rows, modelId, [Embedded]) !! DocsInStates(rows, modelId, [Pending, Stale])
  {
  }

  // -------------------------------------------------------------------------
  // Response
  // -------------------------------------------------------------------------

  function ProgressPercent(snapshot: Snapshot): real {
    if snapshot.total == 0 then 0.0 else snapshot.embedded as real / snapshot.total as real * 100.0
  }

  /** A percentage, and 100 exactly when every document is embedded. */
  lemma ProgressIsPercentage(db: Db, modelId: int, snapshot: Snapshot)
    requires RowsReferToDocuments(db)
    requires snapshot.total == |db.documents.rows| && snapshot.embedded == |FullyEmbedded(db, modelId)|
    ensures 0.0 <= ProgressPercent(snapshot) <= 100.0
    ensures ProgressPercent(snapshot) == 100.0 <==>
              db.documents.rows.Keys != {} && db.documents.rows.Keys <= FullyEmbedded(db, modelId)
  {
    SnapshotConserves(db, modelId, 0);
    var e, all := FullyEmbedded(db, modelId), db.documents.rows.Keys;
    assert |all| == |db.documents.rows|;
    assert e <= all && all == e + (all - e);
    DisjointCount(e, all - e);
    assert |all - e| == 0 <==> all <= e by {
      if |all - e| == 0 { assert all - e == {}; }
      if all <= e { assert all - e == {}; }
    }
    hide FullyEmbedded;
    var embedded, total := snapshot.embedded, snapshot.total;
    if total > 0 { RatioIsPercentage(embedded, total); }
  }

  /** In between it is the exact share. */
  lemma ProgressIsShare(snapshot: Snapshot)
    requires snapshot.total > 0
    ensures ProgressPercent(snapshot) * snapshot.total as real == 100.0 * snapshot.embedded as real
  {
    var share := snapshot.embedded as real / snapshot.total as real;
    assert share * snapshot.total as real == snapshot.embedded as real;
    assert share * 100.0 * snapshot.total as real == 100.0 * (share * snapshot.total as real);
  }

  lemma RatioIsPercentage(part: nat, whole: nat)
    requires part <= whole && whole > 0
    ensures 0.0 <= part as real / whole as real <= 1.0
    ensures part as real / whole as real == 1.0 <==> part == whole
  {
    var q := part as real / whole as real;
    assert q * whole as real == part as real;
    assert (1.0 - q) * whole as real == whole as real - part as real;
  }
}
