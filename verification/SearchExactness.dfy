/** When does search through the index equal the brute-force scan of the model's rows? Rows of other
    models share the index, so the answer depends on where their vectors lie. */
module SearchExactness {
  import opened Prelude
  import opened Types
  import opened Tables
  import opened Ordering
  import opened JobQueue
  import opened StoreSpec
  import opened StoreInvariant
  import opened StoreRuns
  import opened VectorSearch

  // -------------------------------------------------------------------------
  // The condition
  // -------------------------------------------------------------------------

  function DistanceOf(entries: map<int, Blob>, metric: Metric, id: int): real {
    if id in entries then metric(entries[id]) else 0.0
  }

  /** The other entries at most as far as `id`. */
  function Rivals(entries: map<int, Blob>, metric: Metric, id: int): set<int> {
    set x | x in entries.Keys && x != id && DistanceOf(entries, metric, x) <= DistanceOf(entries, metric, id)
  }

  /** The entries strictly nearer than `id`. */
  function Nearer(entries: map<int, Blob>, metric: Metric, id: int): set<int> {
    set x | x in entries.Keys && DistanceOf(entries, metric, x) < DistanceOf(entries, metric, id)
  }

  /** Everything fits; or all rows of the model fit and each has fewer than `limit` rivals; or they do
      not all fit and every other entry has at least `limit` entries strictly nearer. */
  ghost predicate NothingCrowdsOut(entries: map<int, Blob>, own: set<int>, metric: Metric, limit: nat) {
    || |entries.Keys| <= limit
    || (|own| <= limit && forall id :: id in own ==> |Rivals(entries, metric, id)| < limit)
    || (|own| > limit && forall id :: id in entries.Keys - own ==> |Nearer(entries, metric, id)| >= limit)
  }

  /** Every correct answer of the index gives a correct answer of the brute-force scan. */
  ghost predicate SearchIsAlwaysExact(db: Db, modelId: int, metric: Metric, limit: nat)
    requires db.vec.Some?
  {
    forall nearest :: IsNearest(db.vec.value.entries, metric, limit, nearest) ==>
      IsNearest(ModelEntries(db, modelId), metric, limit, Wanted(db, modelId, nearest))
  }

  // -------------------------------------------------------------------------
  // Answers exist
  // -------------------------------------------------------------------------

  lemma {:induction false} DistinctCount(ids: seq<int>)
    requires AllDistinct(ids)
    ensures |SetOf(ids)| == |ids|
  {
    if ids != [] {
      var init, last := ids[..|ids| - 1], ids[|ids| - 1];
      DistinctCount(init);
      assert SetOf(ids) == SetOf(init) + {last};
    }
  }

  /** Any finite set of ids can be listed. */
  lemma ListingExists(s: set<int>) returns (ids: seq<int>)
    ensures AllDistinct(ids) && SetOf(ids) == s && |ids| == |s|
  {
    var keys := set id | id in s :: Key(id, 0, 0);
    var sorted := Sorted(keys);
    SortedIsOrdered(keys);
    hide Sorted;
    ids := seq(|sorted|, k requires 0 <= k < |sorted| => sorted[k].first);
    forall j, k | 0 <= j < k < |ids|
      ensures ids[j] != ids[k]
    {
      assert sorted[j] in sorted && sorted[k] in sorted;
      assert Before(sorted[j], sorted[k]);
    }
    forall id | id in s
      ensures id in SetOf(ids)
    {
      assert Key(id, 0, 0) in sorted;
      var k :| 0 <= k < |sorted| && sorted[k] == Key(id, 0, 0);
      assert ids[k] == id;
    }
    forall id | id in SetOf(ids)
      ensures id in s
    {
      var k :| 0 <= k < |ids| && ids[k] == id;
      assert sorted[k] in sorted;
    }
    assert SetOf(ids) == s;
    DistinctCount(ids);
  }

  ghost predicate SortedBy(ids: seq<int>, entries: map<int, Blob>, metric: Metric) {
    forall j, k :: 0 <= j < k < |ids| ==> DistanceOf(entries, metric, ids[j]) <= DistanceOf(entries, metric, ids[k])
  }

  lemma {:induction false} InsertById(ids: seq<int>, entries: map<int, Blob>, metric: Metric, id: int)
    returns (r: seq<int>)
    requires SortedBy(ids, entries, metric) && AllDistinct(ids) && id !in ids
    ensures SortedBy(r, entries, metric) && AllDistinct(r) && SetOf(r) == SetOf(ids) + {id} && |r| == |ids| + 1
    ensures forall x :: x in r <==> x in ids || x == id
  {
    if ids == [] || DistanceOf(entries, metric, ids[|ids| - 1]) <= DistanceOf(entries, metric, id) {
      r := ids + [id];
    } else {
      var init, last := ids[..|ids| - 1], ids[|ids| - 1];
      assert ids == init + [last];
      var inner := InsertById(init, entries, metric, id);
      r := inner + [last];
      forall j | 0 <= j < |inner|
        ensures DistanceOf(entries, metric, inner[j]) <= DistanceOf(entries, metric, last)
      {
        assert inner[j] in inner;
        if inner[j] != id {
          var i :| 0 <= i < |init| && init[i] == inner[j];
          assert ids[i] == inner[j];
        }
      }
      assert last !in inner;
    }
  }

  lemma {:induction false} SortListing(ids: seq<int>, entries: map<int, Blob>, metric: Metric) returns (r: seq<int>)
    requires AllDistinct(ids)
    ensures SortedBy(r, entries, metric) && AllDistinct(r) && SetOf(r) == SetOf(ids) && |r| == |ids|
  {
    if ids == [] {
      r := [];
    } else {
      var init, last := ids[..|ids| - 1], ids[|ids| - 1];
      var inner := SortListing(init, entries, metric);
      assert SetOf(ids) == SetOf(init) + {last};
      assert last !in SetOf(init);
      assert last !in inner;
      r := InsertById(inner, entries, metric, last);
    }
  }

  /** Ids listed from near to far. */
  lemma RankingExists(s: set<int>, entries: map<int, Blob>, metric: Metric) returns (ids: seq<int>)
    ensures SortedBy(ids, entries, metric) && AllDistinct(ids) && SetOf(ids) == s && |ids| == |s|
  {
    var listing := ListingExists(s);
    ids := SortListing(listing, entries, metric);
  }

  // -------------------------------------------------------------------------
  // A row that can be left out, and one that can get in
  // -------------------------------------------------------------------------

  lemma FirstIds(ids: seq<int>, n: nat)
    requires AllDistinct(ids) && n <= |ids|
    ensures |SetOf(ids[..n])| == n && SetOf(ids[..n]) <= SetOf(ids)
    ensures forall id :: id in SetOf(ids) - SetOf(ids[..n]) ==> exists k :: n <= k < |ids| && ids[k] == id
  {
    DistinctCount(ids[..n]);
    forall id | id in SetOf(ids) - SetOf(ids[..n])
      ensures exists k :: n <= k < |ids| && ids[k] == id
    {
      assert ids == ids[..n] + ids[n..];
      assert id in ids[n..];
      var j :| 0 <= j < |ids[n..]| && ids[n..][j] == id;
      assert ids[n + j] == id;
    }
  }

  lemma FirstAreNear(entries: map<int, Blob>, metric: Metric, ids: seq<int>, n: nat, near: int, far: int)
    requires SortedBy(ids, entries, metric) && AllDistinct(ids) && n <= |ids|
    requires near in SetOf(ids[..n]) && far in SetOf(ids) - SetOf(ids[..n])
    ensures DistanceOf(entries, metric, near) <= DistanceOf(entries, metric, far)
  {
    FirstIds(ids, n);
    var j :| 0 <= j < n && ids[..n][j] == near;
    var k :| n <= k < |ids| && ids[k] == far;
    assert ids[j] == near;
  }

  lemma RemoveOne(s: set<int>, id: int)
    requires id in s
    ensures |s - {id}| == |s| - 1
  {
    assert s == s - {id} + {id};
  }

  /** With `limit` rivals a row is left out by some correct answer. */
  lemma CanBeLeftOut(entries: map<int, Blob>, metric: Metric, limit: nat, id: int) returns (nearest: set<int>)
    requires id in entries && |Rivals(entries, metric, id)| >= limit
    ensures IsNearest(entries, metric, limit, nearest) && id !in nearest
  {
    var others := entries.Keys - {id};
    var ids := RankingExists(others, entries, metric);
    SubsetCount(Rivals(entries, metric, id), others);
    RemoveOne(entries.Keys, id);
    FirstIds(ids, limit);
    nearest := SetOf(ids[..limit]);
    forall near | near in nearest
      ensures DistanceOf(entries, metric, near) <= DistanceOf(entries, metric, id)
    {
      var k :| 0 <= k < limit && ids[k] == near;
      if DistanceOf(entries, metric, near) > DistanceOf(entries, metric, id) {
        RivalsComeFirst(entries, metric, id, ids, k);
      }
    }
    forall near, far | near in nearest && far in entries.Keys - nearest
      ensures DistanceOf(entries, metric, near) <= DistanceOf(entries, metric, far)
    {
      if far != id { FirstAreNear(entries, metric, ids, limit, near, far); }
    }
    hide DistanceOf, Rivals, SortedBy;
    NearestByDistance(entries, metric, limit, nearest);
  }

  lemma RivalsComeFirst(entries: map<int, Blob>, metric: Metric, id: int, ids: seq<int>, k: nat)
    requires SortedBy(ids, entries, metric) && AllDistinct(ids) && SetOf(ids) == entries.Keys - {id} && k < |ids|
    requires DistanceOf(entries, metric, ids[k]) > DistanceOf(entries, metric, id)
    ensures |Rivals(entries, metric, id)| <= k
  {
    FirstIds(ids, k);
    forall x | x in Rivals(entries, metric, id)
      ensures x in SetOf(ids[..k])
    {
      assert x in SetOf(ids);
      var j :| 0 <= j < |ids| && ids[j] == x;
      assert j < k;
      assert ids[..k][j] == x;
    }
    SubsetCount(Rivals(entries, metric, id), SetOf(ids[..k]));
  }

  lemma NearestByDistance(entries: map<int, Blob>, metric: Metric, limit: nat, nearest: set<int>)
    requires nearest <= entries.Keys && |nearest| == Min(limit, |entries.Keys|)
    requires forall near, far :: near in nearest && far in entries.Keys - nearest ==>
               DistanceOf(entries, metric, near) <= DistanceOf(entries, metric, far)
    ensures IsNearest(entries, metric, limit, nearest)
  {
  }

  /** With fewer than `limit` entries strictly nearer a row gets into some correct answer. */
  lemma CanGetIn(entries: map<int, Blob>, metric: Metric, limit: nat, id: int) returns (nearest: set<int>)
    requires id in entries && |Nearer(entries, metric, id)| < limit && limit <= |entries.Keys|
    ensures IsNearest(entries, metric, limit, nearest) && id in nearest
  {
    hide DistanceOf, Nearer, SortedBy, AllDistinct, IsNearest, SetOf;
    var others := entries.Keys - {id};
    var ids := RankingExists(others, entries, metric);
    RemoveOne(entries.Keys, id);
    FirstIds(ids, limit - 1);
    var first := SetOf(ids[..limit - 1]);
    nearest := first + {id};
    assert id !in first;
    forall near, far | near in nearest && far in entries.Keys - nearest
      ensures DistanceOf(entries, metric, near) <= DistanceOf(entries, metric, far)
    {
      assert far in SetOf(ids) - first;
      if near == id {
        RestIsBeyond(entries, metric, limit, id, ids, far);
      } else {
        FirstAreNear(entries, metric, ids, limit - 1, near, far);
      }
    }
    NearestByDistance(entries, metric, limit, nearest);
  }

  lemma RestIsBeyond(entries: map<int, Blob>, metric: Metric, limit: nat, id: int, ids: seq<int>, far: int)
    requires SortedBy(ids, entries, metric) && AllDistinct(ids) && SetOf(ids) == entries.Keys - {id}
    requires |Nearer(entries, metric, id)| < limit <= |ids| + 1
    requires far in SetOf(ids) - SetOf(ids[..limit - 1])
    ensures DistanceOf(entries, metric, id) <= DistanceOf(entries, metric, far)
  {
    FirstIds(ids, limit - 1);
    var k :| limit - 1 <= k < |ids| && ids[k] == far;
    if DistanceOf(entries, metric, ids[k]) < DistanceOf(entries, metric, id) {
      FirstAreNearer(entries, metric, id, ids, k);
    }
  }

  lemma FirstAreNearer(entries: map<int, Blob>, metric: Metric, id: int, ids: seq<int>, k: nat)
    requires SortedBy(ids, entries, metric) && AllDistinct(ids) && SetOf(ids) == entries.Keys - {id} && k < |ids|
    requires DistanceOf(entries, metric, ids[k]) < DistanceOf(entries, metric, id)
    ensures |Nearer(entries, metric, id)| >= k + 1
  {
    FirstIds(ids, k + 1);
    forall x | x in SetOf(ids[..k + 1])
      ensures x in Nearer(entries, metric, id)
    {
      var j :| 0 <= j <= k && ids[j] == x;
      assert x in SetOf(ids);
    }
    SubsetCount(SetOf(ids[..k + 1]), Nearer(entries, metric, id));
  }

  // -------------------------------------------------------------------------
  // Rows that every answer has, and rows that none has
  // -------------------------------------------------------------------------

  /** With fewer than `limit` rivals a row is in every correct answer. */
  lemma IsAlwaysIn(entries: map<int, Blob>, metric: Metric, limit: nat, nearest: set<int>, id: int)
    requires IsNearest(entries, metric, limit, nearest) && id in entries && |entries.Keys| > limit
    requires |Rivals(entries, metric, id)| < limit
    ensures id in nearest
  {
    if id !in nearest {
      assert nearest <= Rivals(entries, metric, id);
      SubsetCount(nearest, Rivals(entries, metric, id));
    }
  }

  /** With `limit` entries strictly nearer a row is in no correct answer. */
  lemma IsNeverIn(entries: map<int, Blob>, metric: Metric, limit: nat, nearest: set<int>, id: int)
    requires IsNearest(entries, metric, limit, nearest) && id in entries && |entries.Keys| > limit
    requires |Nearer(entries, metric, id)| >= limit
    ensures id !in nearest
  {
    if id in nearest {
      forall x | x in Nearer(entries, metric, id)
        ensures x in nearest - {id}
      {
      }
      RemoveOne(nearest, id);
      SubsetCount(Nearer(entries, metric, id), nearest - {id});
    }
  }

  // -------------------------------------------------------------------------
  // Exactness
  // -------------------------------------------------------------------------

  /** An answer with all own rows or only own rows. */
  predicate IsPure(own: set<int>, nearest: set<int>) { own <= nearest || nearest <= own }

  lemma AllFit(entries: map<int, Blob>, own: set<int>, metric: Metric, limit: nat, nearest: set<int>)
    requires IsNearest(entries, metric, limit, nearest) && own <= entries.Keys && |entries.Keys| <= limit
    ensures IsPure(own, nearest)
  {
    SubsetCount(nearest, entries.Keys);
  }

  lemma ConditionIsEnough(entries: map<int, Blob>, own: set<int>, metric: Metric, limit: nat, nearest: set<int>)
    requires own <= entries.Keys && NothingCrowdsOut(entries, own, metric, limit)
    requires IsNearest(entries, metric, limit, nearest)
    ensures IsPure(own, nearest)
  {
    if |entries.Keys| <= limit {
      AllFit(entries, own, metric, limit, nearest);
    } else if |own| <= limit {
      forall id | id in own
        ensures id in nearest
      {
        IsAlwaysIn(entries, metric, limit, nearest, id);
      }
    } else {
      forall id | id in nearest
        ensures id in own
      {
        if id !in own { IsNeverIn(entries, metric, limit, nearest, id); }
      }
    }
  }

  lemma ConditionIsNeeded(entries: map<int, Blob>, own: set<int>, metric: Metric, limit: nat)
    returns (nearest: set<int>)
    requires own <= entries.Keys && !NothingCrowdsOut(entries, own, metric, limit)
    ensures IsNearest(entries, metric, limit, nearest) && !IsPure(own, nearest)
  {
    if |own| <= limit {
      var id :| id in own && |Rivals(entries, metric, id)| >= limit;
      nearest := CanBeLeftOut(entries, metric, limit, id);
      if nearest <= own { SubsetCount(nearest, own); }
    } else {
      var id :| id in entries.Keys - own && |Nearer(entries, metric, id)| < limit;
      nearest := CanGetIn(entries, metric, limit, id);
      if own <= nearest { SubsetCount(own, nearest); }
    }
  }

  /** Over a complete index: search is exact, whichever correct answer the index picks, exactly when
      no row of another model crowds out a row of the searched one. */
  lemma SearchIsExactIff(db: Db, modelId: int, metric: Metric, limit: nat)
    requires Inv(db) && db.vec.Some? && VecHolds(db.vec.value, db.embeddings, modelId)
    ensures SearchIsAlwaysExact(db, modelId, metric, limit)
            <==> NothingCrowdsOut(db.vec.value.entries, ModelEntries(db, modelId).Keys, metric, limit)
  {
    var entries, own := db.vec.value.entries, ModelEntries(db, modelId).Keys;
    WantedInIndex(db, modelId, {});
    hide Inv, VecHolds, ModelEntries, IsNearest, Wanted, NothingCrowdsOut;
    if NothingCrowdsOut(entries, own, metric, limit) {
      forall nearest | IsNearest(entries, metric, limit, nearest)
        ensures IsNearest(ModelEntries(db, modelId), metric, limit, Wanted(db, modelId, nearest))
      {
        ConditionIsEnough(entries, own, metric, limit, nearest);
        AnswerIsExactIff(db, modelId, metric, limit, nearest);
      }
    } else {
      var nearest := ConditionIsNeeded(entries, own, metric, limit);
      AnswerIsExactIff(db, modelId, metric, limit, nearest);
    }
  }

  /** In every reachable serving state, unless an index build was torn, a query of the served model's
      dimension is answered, and answered exactly under the same condition. */
  lemma ServedSearch(sys: Sys, metric: Metric, limit: nat)
    requires IsReachable(sys) && sys.phase.Serving? && !sys.torn
    ensures var db, modelId := sys.db, sys.phase.modelId;
            && modelId in db.models.rows && db.vec.Some?
            && ActiveModelError(db, modelId, db.models.rows[modelId].dimensions).None?
            && db.vec.value.dimensions == db.models.rows[modelId].dimensions
            && (SearchIsAlwaysExact(db, modelId, metric, limit)
                <==> NothingCrowdsOut(db.vec.value.entries, ModelEntries(db, modelId).Keys, metric, limit))
  {
    hide IsReachable, RowsOk, JobsOk, PathsUnique, ModelsOk, RowsSound, VecSound, SearchIsAlwaysExact, NothingCrowdsOut,
      ModelEntries;
    ReachableIsSound(sys);
    IndexSandwich(sys);
    OnlyServedModelIsSearchable(sys, sys.phase.modelId);
    SearchIsExactIff(sys.db, sys.phase.modelId, metric, limit);
  }
}
