/** Vector search through the index, against a brute-force scan of the Embedded rows. */
module VectorSearch {
  import opened Prelude
  import opened Types
  import opened Tables
  import opened JobQueue
  import opened StoreSpec
  import opened StoreInvariant
  import opened StoreRuns

  /** Distance of a stored vector to the query. */
  type Metric = Blob -> real

  datatype SearchHit = SearchHit(documentId: int, filepath: Path, embeddingId: int, chunk: ChunkRef, distance: real)

  datatype SearchError = QueryLength | NoSearchState | OtherModel | OtherDimensions | TableMissing | QueryRefused

  // -------------------------------------------------------------------------
  // Specification
  // -------------------------------------------------------------------------

  /** A correct answer to `MATCH ... ORDER BY distance LIMIT`: as many rows as fit, and none left out
      is nearer than one taken. Ties at the cut are open. */
  ghost predicate IsNearest(entries: map<int, Blob>, metric: Metric, limit: nat, nearest: set<int>) {
    && nearest <= entries.Keys
    && |nearest| == Min(limit, |entries.Keys|)
    && forall near, far :: near in nearest && far in entries.Keys - nearest ==>
         metric(entries[near]) <= metric(entries[far])
  }

  /** The join keeps the Embedded rows of the requested model. */
  predicate IsWanted(row: EmbeddingRow, modelId: int) { row.modelId == modelId && row.state == Embedded }

  function Wanted(db: Db, modelId: int, nearest: set<int>): set<int> {
    set id | id in nearest && id in db.embeddings.rows && IsWanted(db.embeddings.rows[id], modelId)
                           && db.embeddings.rows[id].documentId in db.documents.rows
  }

  /** `ORDER BY distance ASC, id ASC`. */
  predicate HitBefore(x: SearchHit, y: SearchHit) {
    x.distance < y.distance || (x.distance == y.distance && x.embeddingId < y.embeddingId)
  }

  function HitOf(db: Db, vec: VecTable, metric: Metric, id: int): SearchHit
    requires id in db.embeddings.rows && id in vec.entries && db.embeddings.rows[id].documentId in db.documents.rows
  {
    var row := db.embeddings.rows[id];
    SearchHit(row.documentId, db.documents.rows[row.documentId].filepath, id, row.chunk, metric(vec.entries[id]))
  }

  predicate HitsAreOrdered(hits: seq<SearchHit>) {
    forall j, k :: 0 <= j < k < |hits| ==> HitBefore(hits[j], hits[k])
  }

  ghost predicate IsHitList(db: Db, vec: VecTable, metric: Metric, ids: set<int>, hits: seq<SearchHit>)
    requires ids <= db.embeddings.rows.Keys && ids <= vec.entries.Keys
    requires forall id :: id in ids ==> db.embeddings.rows[id].documentId in db.documents.rows
  {
    && HitsAreOrdered(hits)
    && (forall hit :: hit in hits ==> hit.embeddingId in ids && hit == HitOf(db, vec, metric, hit.embeddingId))
    && (forall id :: id in ids ==> HitOf(db, vec, metric, id) in hits)
  }

  function EmbeddingIds(hits: seq<SearchHit>): set<int> { set k | 0 <= k < |hits| :: hits[k].embeddingId }

  function ActiveModelError(db: Db, modelId: int, dimensions: int): Option<SearchError> {
    match db.search
    case None => Some(NoSearchState)
    case Some(state) =>
      if state.activeModelId != modelId then Some(OtherModel)
      else if state.dimensions != dimensions then Some(OtherDimensions)
      else if db.vec.None? then Some(TableMissing)
      else None
  }

  // -------------------------------------------------------------------------
  // The query
  // -------------------------------------------------------------------------

  method EnsureActiveVecModel(db: Db, modelId: int, dimensions: int) returns (error: Option<SearchError>)
    ensures error == ActiveModelError(db, modelId, dimensions)
    ensures error.None? ==> db.vec.Some?
  {
    if db.search.None? {
      return Some(NoSearchState);
    }
    if db.search.value.activeModelId != modelId {
      return Some(OtherModel);
    }
    if db.search.value.dimensions != dimensions {
      return Some(OtherDimensions);
    }
    if db.vec.None? {
      return Some(TableMissing);
    }
    return None;
  }

  predicate AllDistinct(ids: seq<int>) { forall j, k :: 0 <= j < k < |ids| ==> ids[j] != ids[k] }

  /** Joins and orders the rows that the index returned. */
  method JoinHits(db: Db, vec: VecTable, metric: Metric, modelId: int, nearest: seq<int>) returns (hits: seq<SearchHit>)
    requires SetOf(nearest) <= vec.entries.Keys && AllDistinct(nearest)
    ensures IsHitList(db, vec, metric, Wanted(db, modelId, SetOf(nearest)), hits)
  {
    hits := [];
    for i := 0 to |nearest|
      invariant SetOf(nearest[..i]) <= vec.entries.Keys
      invariant IsHitList(db, vec, metric, Wanted(db, modelId, SetOf(nearest[..i])), hits)
    {
      var id := nearest[i];
      ghost var done := Wanted(db, modelId, SetOf(nearest[..i]));
      assert SetOf(nearest[..i + 1]) == SetOf(nearest[..i]) + {id};
      assert id in SetOf(nearest);
      assert id !in SetOf(nearest[..i]);
      if id in db.embeddings.rows && IsWanted(db.embeddings.rows[id], modelId)
         && db.embeddings.rows[id].documentId in db.documents.rows {
        var hit := HitOf(db, vec, metric, id);
        var k := 0;
        while k < |hits| && HitBefore(hits[k], hit)
          invariant 0 <= k <= |hits|
          invariant forall j :: 0 <= j < k ==> HitBefore(hits[j], hit)
        {
          k := k + 1;
        }
        assert Wanted(db, modelId, SetOf(nearest[..i + 1])) == done + {id};
        InsertedHit(db, vec, metric, done, hits, id, k);
        hits := hits[..k] + [hit] + hits[k..];
      } else {
        assert Wanted(db, modelId, SetOf(nearest[..i + 1])) == done;
      }
    }
    assert nearest[..|nearest|] == nearest;
  }

  lemma InsertKeepsOrder(hits: seq<SearchHit>, hit: SearchHit, k: nat)
    requires HitsAreOrdered(hits) && k <= |hits|
    requires forall j :: 0 <= j < k ==> HitBefore(hits[j], hit)
    requires k < |hits| ==> HitBefore(hit, hits[k])
    ensures HitsAreOrdered(hits[..k] + [hit] + hits[k..])
  {
    var after := hits[..k] + [hit] + hits[k..];
    forall i, j | 0 <= i < j < |after|
      ensures HitBefore(after[i], after[j])
    {
      if k < |hits| && i == k && j > k + 1 { assert HitBefore(hits[k], hits[j - 1]); }
      if i < k && j > k { assert HitBefore(hits[i], hits[j - 1]); }
    }
  }

  lemma InsertedHit(db: Db, vec: VecTable, metric: Metric, done: set<int>, hits: seq<SearchHit>, id: int, k: nat)
    requires done <= db.embeddings.rows.Keys && done <= vec.entries.Keys
    requires forall d :: d in done ==> db.embeddings.rows[d].documentId in db.documents.rows
    requires IsHitList(db, vec, metric, done, hits)
    requires id !in done && id in db.embeddings.rows && id in vec.entries
    requires db.embeddings.rows[id].documentId in db.documents.rows
    requires k <= |hits|
    requires forall j :: 0 <= j < k ==> HitBefore(hits[j], HitOf(db, vec, metric, id))
    requires k < |hits| ==> !HitBefore(hits[k], HitOf(db, vec, metric, id))
    ensures IsHitList(db, vec, metric, done + {id}, hits[..k] + [HitOf(db, vec, metric, id)] + hits[k..])
  {
    var hit := HitOf(db, vec, metric, id);
    InsertKeepsOrder(hits, hit, k);
    InsertedMembers(hits, hit, k);
    hide HitBefore, HitsAreOrdered;
  }

  lemma InsertedMembers(hits: seq<SearchHit>, hit: SearchHit, k: nat)
    requires k <= |hits|
    ensures forall x :: x in hits[..k] + [hit] + hits[k..] <==> x in hits || x == hit
  {
    assert hits == hits[..k] + hits[k..];
  }

  /** `nearest` is the index's own answer; the table refuses a query of another dimension. With a limit
      of 0 nothing is checked. */
  method SearchDocuments(db: Db, modelId: int, dimensions: int, queryLength: nat, metric: Metric, limit: nat,
                         nearest: seq<int>)
    returns (r: Result<seq<SearchHit>, SearchError>)
    requires AllDistinct(nearest)
    requires db.vec.Some? ==> IsNearest(db.vec.value.entries, metric, limit, SetOf(nearest))
    ensures limit == 0 ==> r == Success([])
    ensures limit > 0 && queryLength != dimensions ==> r == Failure(QueryLength)
    ensures limit > 0 && queryLength == dimensions ==>
              match ActiveModelError(db, modelId, dimensions)
              case Some(error) => r == Failure(error)
              case None =>
                if db.vec.value.dimensions != queryLength then r == Failure(QueryRefused)
                else r.Success? && IsHitList(db, db.vec.value, metric, Wanted(db, modelId, SetOf(nearest)), r.value)
  {
    if limit == 0 {
      return Success([]);
    }
    if queryLength != dimensions {
      return Failure(QueryLength);
    }
    var error := EnsureActiveVecModel(db, modelId, dimensions);
    if error.Some? {
      return Failure(error.value);
    }
    if db.vec.value.dimensions != queryLength {
      return Failure(QueryRefused);
    }
    var hits := JoinHits(db, db.vec.value, metric, modelId, nearest);
    return Success(hits);
  }

  // -------------------------------------------------------------------------
  // Soundness
  // -------------------------------------------------------------------------

  /** The vectors of all Embedded rows of the model: what a scan without an index would rank. */
  function ModelEntries(db: Db, modelId: int): map<int, Blob> { ModelVectors(db.embeddings, modelId) }

  /** Every hit is an Embedded row of the requested model in an existing document, ranked by the
      distance of its own stored bytes; no row occurs twice. */
  lemma HitsAreSound(db: Db, modelId: int, metric: Metric, nearest: set<int>, hits: seq<SearchHit>, k: nat)
    requires Inv(db) && db.vec.Some? && nearest <= db.vec.value.entries.Keys
    requires IsHitList(db, db.vec.value, metric, Wanted(db, modelId, nearest), hits) && k < |hits|
    ensures var id := hits[k].embeddingId;
            && id in db.embeddings.rows && IsWanted(db.embeddings.rows[id], modelId)
            && hits[k].documentId == db.embeddings.rows[id].documentId && hits[k].documentId in db.documents.rows
            && hits[k].filepath == db.documents.rows[hits[k].documentId].filepath
            && hits[k].chunk == db.embeddings.rows[id].chunk
            && db.embeddings.rows[id].embedding.Some?
            && hits[k].distance == metric(db.embeddings.rows[id].embedding.value)
            && id in ModelEntries(db, modelId)
    ensures forall j :: k < j < |hits| ==>
              && hits[j].embeddingId != hits[k].embeddingId && hits[k].distance <= hits[j].distance
              && (hits[k].distance == hits[j].distance ==> hits[k].embeddingId < hits[j].embeddingId)
  {
    hide RowsOk, JobsOk, PathsUnique, ModelsOk;
    forall j | k < j < |hits|
      ensures hits[j].embeddingId != hits[k].embeddingId && hits[k].distance <= hits[j].distance
      ensures hits[k].distance == hits[j].distance ==> hits[k].embeddingId < hits[j].embeddingId
    {
      assert HitBefore(hits[k], hits[j]);
    }
  }

  // -------------------------------------------------------------------------
  // Against brute force
  // -------------------------------------------------------------------------

  lemma SubsetCount(x: set<int>, y: set<int>)
    requires x <= y
    ensures |x| <= |y| && (|x| == |y| <==> x == y)
  {
    assert y == x + (y - x);
    assert |y| == |x| + |y - x|;
  }

  lemma WantedInIndex(db: Db, modelId: int, nearest: set<int>)
    requires Inv(db) && db.vec.Some? && VecHolds(db.vec.value, db.embeddings, modelId)
    requires nearest <= db.vec.value.entries.Keys
    ensures ModelEntries(db, modelId).Keys <= db.vec.value.entries.Keys
    ensures Wanted(db, modelId, nearest) == nearest * ModelEntries(db, modelId).Keys
    ensures forall id :: id in ModelEntries(db, modelId) ==>
              ModelEntries(db, modelId)[id] == db.vec.value.entries[id]
  {
    hide RowsOk, JobsOk, PathsUnique, ModelsOk;
    forall id | id in nearest
      ensures id in Wanted(db, modelId, nearest) <==> id in ModelEntries(db, modelId)
    {
      assert RowIsSound(db, db.embeddings.rows[id]);
    }
    forall id | id in ModelEntries(db, modelId).Keys
      ensures id in db.vec.value.entries.Keys
    {
      assert db.embeddings.rows[id].state == Embedded;
    }
  }

  /** One answer of the index gives a correct answer of the brute-force scan exactly when it has every
      row of the model or only rows of the model. */
  lemma AnswerIsExactIff(db: Db, modelId: int, metric: Metric, limit: nat, nearest: set<int>)
    requires Inv(db) && db.vec.Some? && VecHolds(db.vec.value, db.embeddings, modelId)
    requires IsNearest(db.vec.value.entries, metric, limit, nearest)
    ensures IsNearest(ModelEntries(db, modelId), metric, limit, Wanted(db, modelId, nearest))
            <==> ModelEntries(db, modelId).Keys <= nearest || nearest <= ModelEntries(db, modelId).Keys
  {
    WantedInIndex(db, modelId, nearest);
    var own, all := ModelEntries(db, modelId).Keys, db.vec.value.entries.Keys;
    var found := Wanted(db, modelId, nearest);
    hide Inv, Wanted, ModelEntries, VecHolds;
    SubsetCount(found, own);
    SubsetCount(found, nearest);
    SubsetCount(nearest, all);
    SubsetCount(own, all);
    CrowdingCount(own, all, nearest, limit);
  }

  lemma CrowdingCount(own: set<int>, all: set<int>, nearest: set<int>, limit: nat)
    requires own <= all && nearest <= all && |nearest| == Min(limit, |all|)
    ensures |nearest * own| == Min(limit, |own|) <==> own <= nearest || nearest <= own
  {
    SubsetCount(nearest * own, own);
    SubsetCount(nearest * own, nearest);
    SubsetCount(nearest, all);
    SubsetCount(own, all);
    if own <= nearest { assert nearest * own == own; }
    if nearest <= own { assert nearest * own == nearest; }
    if |nearest * own| == |own| { assert nearest * own == own; }
    if |nearest * own| == |nearest| { assert nearest * own == nearest; }
  }

  /** Only rows of the model are indexed. */
  ghost predicate OnlyModelIndexed(db: Db, modelId: int) {
    db.vec.Some? && forall id :: id in db.vec.value.entries ==>
      id in db.embeddings.rows && db.embeddings.rows[id].modelId == modelId
  }

  /** So search equals the brute-force scan whenever only the searched model's rows are indexed. */
  lemma SearchIsBruteForce(db: Db, modelId: int, metric: Metric, limit: nat, nearest: set<int>, hits: seq<SearchHit>)
    requires Inv(db) && db.vec.Some? && VecHolds(db.vec.value, db.embeddings, modelId) && OnlyModelIndexed(db, modelId)
    requires IsNearest(db.vec.value.entries, metric, limit, nearest)
    requires IsHitList(db, db.vec.value, metric, Wanted(db, modelId, nearest), hits)
    ensures IsNearest(ModelEntries(db, modelId), metric, limit, EmbeddingIds(hits))
    ensures |hits| == Min(limit, |ModelEntries(db, modelId).Keys|)
  {
    WantedInIndex(db, modelId, nearest);
    AnswerIsExactIff(db, modelId, metric, limit, nearest);
    OnlyOwnRows(db, modelId);
    HitIds(db, db.vec.value, metric, Wanted(db, modelId, nearest), hits);
    hide Inv, ModelEntries, IsHitList;
  }

  /** While serving, search accepts exactly the served model. */
  lemma OnlyServedModelIsSearchable(sys: Sys, modelId: int)
    requires IsReachable(sys) && sys.phase.Serving? && modelId in sys.db.models.rows
    ensures ActiveModelError(sys.db, modelId, sys.db.models.rows[modelId].dimensions).None?
            <==> modelId == sys.phase.modelId
  {
    hide IsReachable, Inv;
    ReachableIsSound(sys);
  }

  lemma OnlyOwnRows(db: Db, modelId: int)
    requires Inv(db) && OnlyModelIndexed(db, modelId)
    ensures db.vec.value.entries.Keys <= ModelEntries(db, modelId).Keys
  {
    hide RowsOk, JobsOk, PathsUnique, ModelsOk, RowsSound;
    forall id | id in db.vec.value.entries.Keys
      ensures id in ModelEntries(db, modelId).Keys
    {
      assert db.embeddings.rows[id].state == Embedded;
    }
  }

  lemma HitIds(db: Db, vec: VecTable, metric: Metric, ids: set<int>, hits: seq<SearchHit>)
    requires ids <= db.embeddings.rows.Keys && ids <= vec.entries.Keys
    requires forall id :: id in ids ==> db.embeddings.rows[id].documentId in db.documents.rows
    requires IsHitList(db, vec, metric, ids, hits)
    ensures EmbeddingIds(hits) == ids && |hits| == |ids|
  {
    forall id | id in ids
      ensures id in EmbeddingIds(hits)
    {
      var k :| 0 <= k < |hits| && hits[k] == HitOf(db, vec, metric, id);
      assert hits[k].embeddingId == id;
    }
    assert EmbeddingIds(hits) == ids;
    IdsCount(hits);
  }

  lemma {:induction false} IdsCount(hits: seq<SearchHit>)
    requires HitsAreOrdered(hits)
    requires forall j, k :: 0 <= j < k < |hits| ==> hits[j].embeddingId != hits[k].embeddingId
    ensures |EmbeddingIds(hits)| == |hits|
  {
    if hits != [] {
      var init, last := hits[..|hits| - 1], hits[|hits| - 1];
      IdsCount(init);
      assert EmbeddingIds(hits) == EmbeddingIds(init) + {last.embeddingId};
    }
  }

  /** The order settles the list: given the nearest rows there is one answer. */
  lemma {:induction false} HitListIsUnique(db: Db, vec: VecTable, metric: Metric, ids: set<int>,
                                           x: seq<SearchHit>, y: seq<SearchHit>)
    requires ids <= db.embeddings.rows.Keys && ids <= vec.entries.Keys
    requires forall id :: id in ids ==> db.embeddings.rows[id].documentId in db.documents.rows
    requires IsHitList(db, vec, metric, ids, x) && IsHitList(db, vec, metric, ids, y)
    ensures x == y
  {
    forall hit
      ensures hit in x <==> hit in y
    {
    }
    OrderedListsAgree(x, y);
  }

  lemma {:induction false} OrderedListsAgree(x: seq<SearchHit>, y: seq<SearchHit>)
    requires HitsAreOrdered(x) && HitsAreOrdered(y)
    requires forall hit :: hit in x <==> hit in y
    ensures x == y
  {
    assert y == [] || y[0] in y;
    if x != [] {
      assert x[0] in x;
      FirstIsLeast(x, y[0]);
      FirstIsLeast(y, x[0]);
      TailMembers(x, y);
      OrderedListsAgree(x[1..], y[1..]);
      assert x == [x[0]] + x[1..] && y == [y[0]] + y[1..];
    }
  }

  lemma FirstIsLeast(x: seq<SearchHit>, hit: SearchHit)
    requires HitsAreOrdered(x) && hit in x
    ensures x[0] == hit || HitBefore(x[0], hit)
  {
  }

  lemma TailMembers(x: seq<SearchHit>, y: seq<SearchHit>)
    requires x != [] && y != [] && x[0] == y[0] && HitsAreOrdered(x) && HitsAreOrdered(y)
    requires forall hit :: hit in x <==> hit in y
    ensures forall hit :: hit in x[1..] <==> hit in y[1..]
  {
    forall hit | hit in x[1..]
      ensures hit in y[1..]
    {
      OtherThanFirst(x, hit);
      assert hit in y;
    }
    forall hit | hit in y[1..]
      ensures hit in x[1..]
    {
      OtherThanFirst(y, hit);
      assert hit in x;
    }
  }

  lemma OtherThanFirst(x: seq<SearchHit>, hit: SearchHit)
    requires HitsAreOrdered(x) && x != [] && hit in x[1..]
    ensures hit != x[0]
  {
    var k :| 0 <= k < |x[1..]| && x[1..][k] == hit;
    assert HitBefore(x[0], x[k + 1]);
  }
}
