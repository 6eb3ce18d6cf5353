/** The search request from its limit to its page of documents, against the rows of the model. */
module SearchPage {
  import opened Prelude
  import opened Types
  import opened Tables
  import opened JobQueue
  import opened StoreSpec
  import opened StoreInvariant
  import opened StoreRuns
  import opened EmbedJob
  import opened VectorSearch
  import opened SearchExactness
  import opened Collapse
  import opened CollapseResults
  import opened RawLimit

  const DEFAULT_SEARCH_LIMIT: usize := 10

  datatype PageError = EmptyQuery | ZeroLimit | LimitTooLarge | NoActiveModel | EmbedFailed | NoVector
    | SearchFailed(error: SearchError)

  function PageLimit(limit: Option<usize>): (count: usize)
    ensures limit == Some(count) || (limit.None? && count == 10)
  {
    if limit.Some? then limit.value else DEFAULT_SEARCH_LIMIT
  }

  // -------------------------------------------------------------------------
  // The request
  // -------------------------------------------------------------------------

  /** The page is made of the rows that the index's answer leaves after the join. */
  ghost predicate IsPage(db: Db, modelId: int, metric: Metric, nearest: seq<int>, limit: nat, includeLocation: bool,
                         page: seq<DocumentResult>)
    requires db.vec.Some? && SetOf(nearest) <= db.vec.value.entries.Keys
  {
    exists hits :: IsHitList(db, db.vec.value, metric, Wanted(db, modelId, SetOf(nearest)), hits)
                   && page == Collapsed(hits, limit, includeLocation)
  }

  ghost predicate IsValidRequest(isBlank: bool, limit: Option<usize>) {
    !isBlank && 0 < PageLimit(limit) <= MAX_SEARCH_LIMIT
  }

  ghost predicate HasActiveModel(db: Db) { db.search.Some? && db.search.value.activeModelId in db.models.rows }

  /** The state, the active model and the table that search needs, and a query that fits them. */
  ghost predicate CanAnswer(db: Db, vectors: Option<seq<Vector>>) {
    && HasActiveModel(db)
    && db.search.value.dimensions == db.models.rows[db.search.value.activeModelId].dimensions
    && db.vec.Some? && db.vec.value.dimensions == db.search.value.dimensions
    && vectors.Some? && vectors.value != [] && |vectors.value[0]| == db.search.value.dimensions
  }

  /** `vectors` is the provider's reply to the query, and `nearest` the index's answer for the distance
      to its first vector. */
  method Search(db: Db, isBlank: bool, limit: Option<usize>, includeLocation: bool, vectors: Option<seq<Vector>>,
                metric: Metric, nearest: seq<int>)
    returns (r: Result<seq<DocumentResult>, PageError>)
    requires AllDistinct(nearest)
    requires db.vec.Some? ==>
               IsNearest(db.vec.value.entries, metric, ExpandedRawLimit(PageLimit(limit)), SetOf(nearest))
    ensures r.Success? <==> IsValidRequest(isBlank, limit) && CanAnswer(db, vectors)
    ensures r.Success? ==>
              IsPage(db, db.search.value.activeModelId, metric, nearest, PageLimit(limit), includeLocation, r.value)
    ensures r == Failure(EmptyQuery) <==> isBlank
    ensures r == Failure(ZeroLimit) <==> !isBlank && PageLimit(limit) == 0
    ensures r == Failure(LimitTooLarge) <==> !isBlank && PageLimit(limit) > 100
    ensures r == Failure(NoActiveModel) <==> IsValidRequest(isBlank, limit) && !HasActiveModel(db)
    ensures r == Failure(EmbedFailed) <==> IsValidRequest(isBlank, limit) && HasActiveModel(db) && vectors.None?
    ensures r == Failure(NoVector) <==> IsValidRequest(isBlank, limit) && HasActiveModel(db) && vectors == Some([])
  {
    if isBlank {
      return Failure(EmptyQuery);
    }
    var count := PageLimit(limit);
    if count == 0 {
      return Failure(ZeroLimit);
    }
    if count > MAX_SEARCH_LIMIT {
      return Failure(LimitTooLarge);
    }
    if db.search.None? || db.search.value.activeModelId !in db.models.rows {
      return Failure(NoActiveModel);
    }
    var modelId := db.search.value.activeModelId;
    if vectors.None? {
      return Failure(EmbedFailed);
    }
    if vectors.value == [] {
      return Failure(NoVector);
    }
    var found := SearchDocuments(db, modelId, db.models.rows[modelId].dimensions, |vectors.value[0]|, metric,
                                 ExpandedRawLimit(count), nearest);
    if found.Failure? {
      return Failure(SearchFailed(found.error));
    }
    var page := CollapseToDocuments(found.value, count, includeLocation);
    assert IsPage(db, modelId, metric, nearest, count, includeLocation, page);
    return Success(page);
  }

  // -------------------------------------------------------------------------
  // Hits that answer the query
  // -------------------------------------------------------------------------

  function RowDistance(db: Db, modelId: int, metric: Metric, id: int): real {
    DistanceOf(ModelEntries(db, modelId), metric, id)
  }

  function DocumentOf(db: Db, id: int): int {
    if id in db.embeddings.rows then db.embeddings.rows[id].documentId else 0
  }

  function ChunkOf(db: Db, id: int): ChunkRef {
    if id in db.embeddings.rows then db.embeddings.rows[id].chunk else ChunkRef(Filename, 0, 0)
  }

  ghost predicate IsHit(hits: seq<SearchHit>, id: int) { exists k :: 0 <= k < |hits| && hits[k].embeddingId == id }

  ghost predicate HitIsOwn(db: Db, modelId: int, metric: Metric, hit: SearchHit) {
    && hit.embeddingId in ModelEntries(db, modelId) && hit.documentId == DocumentOf(db, hit.embeddingId)
    && hit.documentId in db.documents.rows && hit.filepath == db.documents.rows[hit.documentId].filepath
    && hit.distance == RowDistance(db, modelId, metric, hit.embeddingId) && hit.chunk == ChunkOf(db, hit.embeddingId)
  }

  /** The hits are rows of the model from near to far, and the other rows are no nearer. */
  ghost predicate AreNearestHits(db: Db, modelId: int, metric: Metric, hits: seq<SearchHit>) {
    && ByDistance(hits)
    && (forall k :: 0 <= k < |hits| ==> HitIsOwn(db, modelId, metric, hits[k]))
    && (forall id, k :: id in ModelEntries(db, modelId) && !IsHit(hits, id) && 0 <= k < |hits| ==>
          hits[k].distance <= RowDistance(db, modelId, metric, id))
  }

  lemma HitsAreOwn(db: Db, modelId: int, metric: Metric, nearest: set<int>, hits: seq<SearchHit>, k: nat)
    requires Inv(db) && db.vec.Some? && nearest <= db.vec.value.entries.Keys
    requires IsHitList(db, db.vec.value, metric, Wanted(db, modelId, nearest), hits) && k < |hits|
    ensures HitIsOwn(db, modelId, metric, hits[k]) && hits[k].embeddingId in Wanted(db, modelId, nearest)
    ensures forall j :: k < j < |hits| ==> hits[j].embeddingId != hits[k].embeddingId
  {
    HitsAreSound(db, modelId, metric, nearest, hits, k);
    hide Inv, HitsAreOrdered;
  }

  lemma OthersAreFarther(db: Db, modelId: int, metric: Metric, raw: nat, ids: set<int>, hits: seq<SearchHit>)
    requires IsNearest(ModelEntries(db, modelId), metric, raw, ids) && EmbeddingIds(hits) == ids
    requires forall k :: 0 <= k < |hits| ==> HitIsOwn(db, modelId, metric, hits[k]) && hits[k].embeddingId in ids
    ensures forall id, k :: id in ModelEntries(db, modelId) && !IsHit(hits, id) && 0 <= k < |hits| ==>
              hits[k].distance <= RowDistance(db, modelId, metric, id)
    ensures |ids| < raw ==> forall id :: id in ModelEntries(db, modelId) ==> IsHit(hits, id)
  {
    hide ModelEntries;
    forall id | id in ids
      ensures IsHit(hits, id)
    {
      assert id in EmbeddingIds(hits);
    }
    if |ids| < raw { SubsetCount(ids, ModelEntries(db, modelId).Keys); }
  }

  /** An exact answer of the index gives hits that are nearest, and all rows of the model if fewer than
      the raw limit. */
  lemma ExactSearchIsNearest(db: Db, modelId: int, metric: Metric, raw: nat, nearest: set<int>, hits: seq<SearchHit>)
    requires Inv(db) && db.vec.Some? && nearest <= db.vec.value.entries.Keys
    requires IsNearest(ModelEntries(db, modelId), metric, raw, Wanted(db, modelId, nearest))
    requires IsHitList(db, db.vec.value, metric, Wanted(db, modelId, nearest), hits)
    ensures AreNearestHits(db, modelId, metric, hits)
    ensures |hits| < raw ==> forall id :: id in ModelEntries(db, modelId) ==> IsHit(hits, id)
    ensures forall j, k :: 0 <= j < k < |hits| ==> hits[j].embeddingId != hits[k].embeddingId
  {
    HitListIsByDistance(hits);
    HitIds(db, db.vec.value, metric, Wanted(db, modelId, nearest), hits);
    forall k | 0 <= k < |hits|
      ensures HitIsOwn(db, modelId, metric, hits[k]) && hits[k].embeddingId in Wanted(db, modelId, nearest)
      ensures forall j :: k < j < |hits| ==> hits[j].embeddingId != hits[k].embeddingId
    {
      HitsAreOwn(db, modelId, metric, nearest, hits, k);
    }
    OthersAreFarther(db, modelId, metric, raw, Wanted(db, modelId, nearest), hits);
    hide Inv, IsHitList, Wanted, ModelEntries, HitIsOwn, IsHit, RowDistance;
  }

  // -------------------------------------------------------------------------
  // The page
  // -------------------------------------------------------------------------

  /** Where each ranked document is first met. */
  ghost predicate AreFirsts(hits: seq<SearchHit>, firsts: seq<nat>) {
    && |firsts| == |Ranking(hits)|
    && (forall k :: 0 <= k < |firsts| ==> IsFirst(hits, Ranking(hits)[k], false, firsts[k]))
    && (forall j, k :: 0 <= j < k < |firsts| ==> firsts[j] < firsts[k])
  }

  lemma {:induction false} FirstHits(hits: seq<SearchHit>) returns (firsts: seq<nat>)
    ensures AreFirsts(hits, firsts)
  {
    if hits == [] {
      firsts := [];
    } else {
      var before := FirstHits(hits[..|hits| - 1]);
      firsts := GrownFirsts(hits, before);
    }
  }

  lemma GrownFirsts(hits: seq<SearchHit>, before: seq<nat>) returns (firsts: seq<nat>)
    requires hits != [] && AreFirsts(hits[..|hits| - 1], before)
    ensures AreFirsts(hits, firsts)
  {
    hide Ranking, IsFirst;
    var n := |hits| - 1;
    var docs := Ranking(hits[..n]);
    KnownFirsts(hits, before);
    UnrollRanking(hits, n);
    assert hits[..n + 1] == hits;
    if hits[n].documentId in docs {
      firsts := before;
    } else {
      NewFirst(hits);
      firsts := before + [n];
      assert docs + [hits[n].documentId] == Ranking(hits);
    }
  }

  lemma KnownFirsts(hits: seq<SearchHit>, firsts: seq<nat>)
    requires hits != [] && AreFirsts(hits[..|hits| - 1], firsts)
    ensures forall k :: 0 <= k < |firsts| ==>
              firsts[k] < |hits| - 1 && IsFirst(hits, Ranking(hits[..|hits| - 1])[k], false, firsts[k])
  {
    hide Ranking;
    var docs := Ranking(hits[..|hits| - 1]);
    forall k | 0 <= k < |firsts|
      ensures firsts[k] < |hits| - 1 && IsFirst(hits, docs[k], false, firsts[k])
    {
      assert IsFirst(hits[..|hits| - 1], docs[k], false, firsts[k]);
      ExtendFirst(hits, docs[k], firsts[k]);
    }
  }

  lemma NewFirst(hits: seq<SearchHit>)
    requires hits != [] && hits[|hits| - 1].documentId !in Ranking(hits[..|hits| - 1])
    ensures IsFirst(hits, hits[|hits| - 1].documentId, false, |hits| - 1)
  {
    var init, last := hits[..|hits| - 1], hits[|hits| - 1];
    forall j | 0 <= j < |init|
      ensures !Matches(hits[j], last.documentId, false)
    {
      assert init[j].documentId in Ranking(init);
      assert hits[j] == init[j];
    }
  }

  /** The result shows the row's document, scored by the row, and no row of the document is nearer. */
  ghost predicate ShowsNearestRow(db: Db, modelId: int, metric: Metric, id: int, result: DocumentResult) {
    && id in ModelEntries(db, modelId) && DocumentOf(db, id) in db.documents.rows
    && result.filepath == db.documents.rows[DocumentOf(db, id)].filepath
    && result.matchScore == DistanceToScore(RowDistance(db, modelId, metric, id))
    && forall other :: other in ModelEntries(db, modelId) && DocumentOf(db, other) == DocumentOf(db, id) ==>
         RowDistance(db, modelId, metric, id) <= RowDistance(db, modelId, metric, other)
  }

  /** A row of the document that is not its filename's. */
  predicate IsContentRow(db: Db, modelId: int, docId: int, id: int) {
    id in ModelEntries(db, modelId) && DocumentOf(db, id) == docId && !ChunkOf(db, id).chunkType.Filename?
  }

  /** The row that locates a document shown by row `id`, when `read` are the rows that were read: the
      document's nearest content row if one was read, otherwise `id` itself. */
  ghost predicate IsPlace(db: Db, modelId: int, metric: Metric, read: set<int>, id: int, place: int) {
    if exists other :: other in read && IsContentRow(db, modelId, DocumentOf(db, id), other) then
      && place in read && IsContentRow(db, modelId, DocumentOf(db, id), place)
      && forall other :: IsContentRow(db, modelId, DocumentOf(db, id), other) ==>
           RowDistance(db, modelId, metric, place) <= RowDistance(db, modelId, metric, other)
    else place == id
  }

  ghost predicate ShowsLocation(db: Db, modelId: int, metric: Metric, read: set<int>, id: int, includeLocation: bool,
                                result: DocumentResult)
  {
    if includeLocation then
      exists place :: IsPlace(db, modelId, metric, read, id, place)
                      && result.byteStart == Some(ChunkOf(db, place).start)
                      && result.byteEnd == Some(ChunkOf(db, place).end)
    else result.byteStart.None? && result.byteEnd.None?
  }

  ghost predicate IsOnPage(db: Db, rows: seq<int>, docId: int) {
    exists k :: 0 <= k < |rows| && DocumentOf(db, rows[k]) == docId
  }

  /** The documents with the nearest rows: each once, scored by its nearest row, located by its nearest
      content row read, in order, and no row of a document left out is nearer than one shown. `rows` are
      the nearest rows. */
  ghost predicate ShowsNearest(db: Db, modelId: int, metric: Metric, read: set<int>, includeLocation: bool,
                               rows: seq<int>, page: seq<DocumentResult>)
  {
    && |rows| == |page|
    && (forall k :: 0 <= k < |page| ==> ShowsNearestRow(db, modelId, metric, rows[k], page[k]))
    && (forall k :: 0 <= k < |page| ==> ShowsLocation(db, modelId, metric, read, rows[k], includeLocation, page[k]))
    && (forall j, k :: 0 <= j < k < |page| ==>
          DocumentOf(db, rows[j]) != DocumentOf(db, rows[k]) && page[j].matchScore >= page[k].matchScore)
    && (forall id, k ::
          id in ModelEntries(db, modelId) && !IsOnPage(db, rows, DocumentOf(db, id)) && 0 <= k < |page| ==>
          RowDistance(db, modelId, metric, rows[k]) <= RowDistance(db, modelId, metric, id))
  }

  /** A row of the `k`-th ranked document, or of one that is not ranked before, is no nearer than the
      `k`-th document's first hit. */
  lemma NoRowIsNearer(db: Db, modelId: int, metric: Metric, hits: seq<SearchHit>, firsts: seq<nat>, k: nat, id: int)
    requires AreNearestHits(db, modelId, metric, hits) && id in ModelEntries(db, modelId)
    requires AreFirsts(hits, firsts) && k < |firsts|
    requires forall j :: 0 <= j < k ==> Ranking(hits)[j] != DocumentOf(db, id)
    ensures firsts[k] < |hits| && hits[firsts[k]].distance <= RowDistance(db, modelId, metric, id)
  {
    hide ModelEntries, RowDistance, Ranking;
    assert IsFirst(hits, Ranking(hits)[k], false, firsts[k]);
    if IsHit(hits, id) {
      var i :| 0 <= i < |hits| && hits[i].embeddingId == id;
      assert HitIsOwn(db, modelId, metric, hits[i]);
      FirstComesFirst(hits, firsts, k, i);
    }
  }

  lemma FirstComesFirst(hits: seq<SearchHit>, firsts: seq<nat>, k: nat, i: nat)
    requires AreFirsts(hits, firsts) && k < |firsts| && i < |hits|
    requires forall j :: 0 <= j < k ==> Ranking(hits)[j] != hits[i].documentId
    ensures firsts[k] <= i
  {
    var doc := hits[i].documentId;
    assert doc in Ranking(hits);
    hide Ranking;
    var m :| 0 <= m < |firsts| && Ranking(hits)[m] == doc;
    assert IsFirst(hits, doc, false, firsts[m]);
    assert Matches(hits[i], doc, false);
  }

  lemma ResultIsLocated(db: Db, modelId: int, metric: Metric, hits: seq<SearchHit>, docId: int, first: nat,
                        includeLocation: bool)
    requires AreNearestHits(db, modelId, metric, hits) && IsFirst(hits, docId, false, first)
    ensures FirstMatch(hits, docId, false).Some?
    ensures ShowsLocation(db, modelId, metric, EmbeddingIds(hits), hits[first].embeddingId, includeLocation,
                          ResultFor(hits, docId, includeLocation))
  {
    FirstIsUnique(hits, docId, first);
    FirstMatchIsFirst(hits, docId, true);
    hide ModelEntries, RowDistance, FirstMatch;
    assert HitIsOwn(db, modelId, metric, hits[first]);
    var id, read := hits[first].embeddingId, EmbeddingIds(hits);
    forall other | other in read && IsContentRow(db, modelId, docId, other)
      ensures exists i :: 0 <= i < |hits| && hits[i].embeddingId == other && Matches(hits[i], docId, true)
    {
      var i :| 0 <= i < |hits| && hits[i].embeddingId == other;
      assert HitIsOwn(db, modelId, metric, hits[i]);
    }
    if FirstMatch(hits, docId, true).None? {
      assert IsPlace(db, modelId, metric, read, id, id);
    } else {
      var q :| IsFirst(hits, docId, true, q) && hits[q] == FirstMatch(hits, docId, true).value;
      assert HitIsOwn(db, modelId, metric, hits[q]);
      var place := hits[q].embeddingId;
      assert place in read && IsContentRow(db, modelId, docId, place);
      forall other | IsContentRow(db, modelId, docId, other)
        ensures RowDistance(db, modelId, metric, place) <= RowDistance(db, modelId, metric, other)
      {
        NoContentRowIsNearer(db, modelId, metric, hits, docId, q, other);
      }
      assert IsPlace(db, modelId, metric, read, id, place);
    }
  }

  lemma NoContentRowIsNearer(db: Db, modelId: int, metric: Metric, hits: seq<SearchHit>, docId: int, q: nat, other: int)
    requires AreNearestHits(db, modelId, metric, hits) && IsFirst(hits, docId, true, q)
    requires IsContentRow(db, modelId, docId, other)
    ensures hits[q].distance <= RowDistance(db, modelId, metric, other)
  {
    hide ModelEntries, RowDistance;
    if IsHit(hits, other) {
      var i :| 0 <= i < |hits| && hits[i].embeddingId == other;
      assert HitIsOwn(db, modelId, metric, hits[i]);
      assert Matches(hits[i], docId, true);
      assert q <= i;
    }
  }

  lemma ResultIsNearest(db: Db, modelId: int, metric: Metric, hits: seq<SearchHit>, firsts: seq<nat>, k: nat,
                        includeLocation: bool)
    requires AreNearestHits(db, modelId, metric, hits) && AreFirsts(hits, firsts) && k < |firsts|
    requires FirstMatch(hits, Ranking(hits)[k], false).Some?
    ensures firsts[k] < |hits| && DocumentOf(db, hits[firsts[k]].embeddingId) == Ranking(hits)[k]
    ensures ShowsNearestRow(db, modelId, metric, hits[firsts[k]].embeddingId,
                            ResultFor(hits, Ranking(hits)[k], includeLocation))
  {
    hide ModelEntries, RowDistance, FirstMatch, Ranking;
    assert IsFirst(hits, Ranking(hits)[k], false, firsts[k]);
    FirstIsUnique(hits, Ranking(hits)[k], firsts[k]);
    assert HitIsOwn(db, modelId, metric, hits[firsts[k]]);
    forall other | other in ModelEntries(db, modelId) && DocumentOf(db, other) == Ranking(hits)[k]
      ensures hits[firsts[k]].distance <= RowDistance(db, modelId, metric, other)
    {
      NoRowIsNearer(db, modelId, metric, hits, firsts, k, other);
    }
  }

  lemma PageShowsNearest(db: Db, modelId: int, metric: Metric, hits: seq<SearchHit>, limit: nat, includeLocation: bool)
    returns (rows: seq<int>)
    requires AreNearestHits(db, modelId, metric, hits)
    ensures ShowsNearest(db, modelId, metric, EmbeddingIds(hits), includeLocation, rows,
                         Collapsed(hits, limit, includeLocation))
    ensures forall k :: 0 <= k < |rows| ==> DocumentOf(db, rows[k]) == Ranking(hits)[k]
  {
    var page := Collapsed(hits, limit, includeLocation);
    var firsts := FirstHits(hits);
    rows := seq(|page|, k requires 0 <= k < |page| => hits[firsts[k]].embeddingId);
    hide ModelEntries, RowDistance;
    forall k | 0 <= k < |page|
      ensures ShowsNearestRow(db, modelId, metric, rows[k], page[k]) && DocumentOf(db, rows[k]) == Ranking(hits)[k]
      ensures ShowsLocation(db, modelId, metric, EmbeddingIds(hits), rows[k], includeLocation, page[k])
    {
      ResultIsLocated(db, modelId, metric, hits, Ranking(hits)[k], firsts[k], includeLocation);
      ResultIsNearest(db, modelId, metric, hits, firsts, k, includeLocation);
    }
    hide ShowsNearestRow, ShowsLocation, Collapsed;
    forall j, k | 0 <= j < k < |page|
      ensures page[j].matchScore >= page[k].matchScore
    {
      ScoresDescend(hits, limit, includeLocation, j, k);
    }
    forall id, k | id in ModelEntries(db, modelId) && !IsOnPage(db, rows, DocumentOf(db, id)) && 0 <= k < |page|
      ensures RowDistance(db, modelId, metric, rows[k]) <= RowDistance(db, modelId, metric, id)
    {
      assert HitIsOwn(db, modelId, metric, hits[firsts[k]]);
      NoRowIsNearer(db, modelId, metric, hits, firsts, k, id);
    }
  }

  // -------------------------------------------------------------------------
  // A full page
  // -------------------------------------------------------------------------

  function RowsOfDocument(db: Db, modelId: int, docId: int): set<int> {
    set id | id in ModelEntries(db, modelId) && DocumentOf(db, id) == docId
  }

  /** No document has more than `most` searchable rows of the model. */
  ghost predicate AtMostRowsEach(db: Db, modelId: int, most: nat) {
    forall docId :: |RowsOfDocument(db, modelId, docId)| <= most
  }

  function HitsOfDocument(hits: seq<SearchHit>, docId: int): set<int> {
    set k | 0 <= k < |hits| && hits[k].documentId == docId :: hits[k].embeddingId
  }

  lemma OneMoreHitOfDocument(hits: seq<SearchHit>, hit: SearchHit, docId: int)
    ensures HitsOfDocument(hits + [hit], docId)
         == HitsOfDocument(hits, docId) + if hit.documentId == docId then {hit.embeddingId} else {}
  {
    var all := hits + [hit];
    forall k | 0 <= k < |all| && all[k].documentId == docId
      ensures all[k].embeddingId in HitsOfDocument(hits, docId) || k == |hits|
    {
      if k < |hits| { assert all[k] == hits[k]; }
    }
    forall id | id in HitsOfDocument(hits, docId)
      ensures id in HitsOfDocument(all, docId)
    {
      var k :| 0 <= k < |hits| && hits[k].documentId == docId && hits[k].embeddingId == id;
      assert all[k] == hits[k];
    }
    assert hit.documentId == docId ==> hit.embeddingId in HitsOfDocument(all, docId) by {
      assert all[|hits|] == hit;
    }
  }

  lemma IdIsNew(hits: seq<SearchHit>, hit: SearchHit, docId: int)
    requires forall k :: 0 <= k < |hits| ==> hits[k].embeddingId != hit.embeddingId
    ensures hit.embeddingId !in HitsOfDocument(hits, docId)
  {
  }

  lemma {:induction false} OccurrencesAreRows(hits: seq<SearchHit>, docId: int)
    requires forall j, k :: 0 <= j < k < |hits| ==> hits[j].embeddingId != hits[k].embeddingId
    ensures |HitsOfDocument(hits, docId)| == Occurrences(hits, docId)
  {
    if hits != [] {
      var init, last := hits[..|hits| - 1], hits[|hits| - 1];
      assert hits == init + [last];
      OccurrencesAreRows(init, docId);
      OneMoreHitOfDocument(init, last, docId);
      IdIsNew(init, last, docId);
      hide HitsOfDocument;
    }
  }

  lemma HitsAreFewEach(db: Db, modelId: int, metric: Metric, hits: seq<SearchHit>, most: nat)
    requires AreNearestHits(db, modelId, metric, hits) && AtMostRowsEach(db, modelId, most)
    requires forall j, k :: 0 <= j < k < |hits| ==> hits[j].embeddingId != hits[k].embeddingId
    ensures AtMostEach(hits, most)
  {
    hide ModelEntries, RowDistance;
    forall docId
      ensures Occurrences(hits, docId) <= most
    {
      OccurrencesAreRows(hits, docId);
      forall id | id in HitsOfDocument(hits, docId)
        ensures id in RowsOfDocument(db, modelId, docId)
      {
        var k :| 0 <= k < |hits| && hits[k].documentId == docId && hits[k].embeddingId == id;
        assert HitIsOwn(db, modelId, metric, hits[k]);
      }
      SubsetCount(HitsOfDocument(hits, docId), RowsOfDocument(db, modelId, docId));
    }
  }

  /** The page has as many documents as asked for, or every document with a searchable row. */
  ghost predicate IsFull(db: Db, modelId: int, limit: nat, rows: seq<int>) {
    || |rows| == limit
    || (|rows| < limit && forall id :: id in ModelEntries(db, modelId) ==> IsOnPage(db, rows, DocumentOf(db, id)))
  }

  lemma PageIsFull(db: Db, modelId: int, metric: Metric, hits: seq<SearchHit>, limit: nat, most: nat, rows: seq<int>)
    requires AreNearestHits(db, modelId, metric, hits) && AtMostEach(hits, most)
    requires 0 < limit <= MAX_SEARCH_LIMIT && most * (limit - 1) < SEARCH_RAW_LIMIT_MULTIPLIER * limit
    requires |hits| < ExpandedRawLimit(limit) ==> forall id :: id in ModelEntries(db, modelId) ==> IsHit(hits, id)
    requires |rows| == CollapsedCount(hits, limit)
    requires forall k :: 0 <= k < |rows| ==> DocumentOf(db, rows[k]) == Ranking(hits)[k]
    ensures IsFull(db, modelId, limit, rows)
  {
    hide ModelEntries, RowDistance;
    if |hits| >= ExpandedRawLimit(limit) {
      NamesEnough(hits, limit, most);
    } else if |rows| < limit {
      forall id | id in ModelEntries(db, modelId)
        ensures IsOnPage(db, rows, DocumentOf(db, id))
      {
        var i :| 0 <= i < |hits| && hits[i].embeddingId == id;
        assert HitIsOwn(db, modelId, metric, hits[i]);
        assert hits[i].documentId in Ranking(hits);
        var k :| 0 <= k < |Ranking(hits)| && Ranking(hits)[k] == hits[i].documentId;
        assert DocumentOf(db, rows[k]) == DocumentOf(db, id);
      }
    }
  }

  // -------------------------------------------------------------------------
  // End to end
  // -------------------------------------------------------------------------

  lemma HitsAreRead(db: Db, modelId: int, metric: Metric, nearest: set<int>, hits: seq<SearchHit>)
    requires db.vec.Some? && nearest <= db.vec.value.entries.Keys
    requires IsHitList(db, db.vec.value, metric, Wanted(db, modelId, nearest), hits)
    ensures EmbeddingIds(hits) == Wanted(db, modelId, nearest)
  {
    HitIds(db, db.vec.value, metric, Wanted(db, modelId, nearest), hits);
  }

  /** In every reachable serving state, unless an index build was torn, a query of the served model's
      dimension is answered. */
  lemma ServedQueryIsAnswered(sys: Sys, vector: Vector)
    requires IsReachable(sys) && sys.phase.Serving? && !sys.torn
    requires sys.phase.modelId in sys.db.models.rows && |vector| == sys.db.models.rows[sys.phase.modelId].dimensions
    ensures CanAnswer(sys.db, Some([vector])) && sys.db.search.value.activeModelId == sys.phase.modelId
  {
    hide IsReachable, Inv, IndexComplete;
    ReachableIsSound(sys);
    IndexSandwich(sys);
  }

  /** The page of such a query shows the documents with the nearest rows, each once, scored by its nearest
      row and located by its nearest content row read, as many as asked for or all there are: unless rows of
      another model crowd the index, or a document has too many rows for the raw limit. */
  lemma PageIsNearestDocuments(sys: Sys, metric: Metric, nearest: seq<int>, limit: nat, most: nat,
                               includeLocation: bool, page: seq<DocumentResult>)
    returns (rows: seq<int>)
    requires IsReachable(sys) && sys.phase.Serving? && !sys.torn && sys.db.vec.Some?
    requires 0 < limit <= MAX_SEARCH_LIMIT
    requires IsNearest(sys.db.vec.value.entries, metric, ExpandedRawLimit(limit), SetOf(nearest))
    requires NothingCrowdsOut(sys.db.vec.value.entries, ModelEntries(sys.db, sys.phase.modelId).Keys, metric,
                              ExpandedRawLimit(limit))
    requires AtMostRowsEach(sys.db, sys.phase.modelId, most)
    requires most * (limit - 1) < SEARCH_RAW_LIMIT_MULTIPLIER * limit
    requires IsPage(sys.db, sys.phase.modelId, metric, nearest, limit, includeLocation, page)
    ensures ShowsNearest(sys.db, sys.phase.modelId, metric, Wanted(sys.db, sys.phase.modelId, SetOf(nearest)),
                         includeLocation, rows, page)
    ensures IsFull(sys.db, sys.phase.modelId, limit, rows)
  {
    var db, modelId, raw := sys.db, sys.phase.modelId, ExpandedRawLimit(limit);
    var hits :| IsHitList(db, db.vec.value, metric, Wanted(db, modelId, SetOf(nearest)), hits)
                && page == Collapsed(hits, limit, includeLocation);
    hide IsReachable, Inv, IndexComplete, IsHitList, Wanted, ModelEntries, NothingCrowdsOut, AreNearestHits,
      ShowsNearest, AtMostRowsEach, Collapsed, IsFull, IsHit, AtMostEach;
    ReachableIsSound(sys);
    ServedSearch(sys, metric, raw);
    ExactSearchIsNearest(db, modelId, metric, raw, SetOf(nearest), hits);
    rows := PageShowsNearest(db, modelId, metric, hits, limit, includeLocation);
    HitsAreRead(db, modelId, metric, SetOf(nearest), hits);
    HitsAreFewEach(db, modelId, metric, hits, most);
    PageIsFull(db, modelId, metric, hits, limit, most, rows);
  }
}
