/** What collapsed results mean for a reader of the search page. */
module CollapseResults {
  import opened Prelude
  import opened Types
  import opened Tables
  import opened VectorSearch
  import opened Collapse

  // -------------------------------------------------------------------------
  // Order
  // -------------------------------------------------------------------------

  ghost predicate HasHitBeforeAll(hits: seq<SearchHit>, doc: int, other: int) {
    exists p :: IsFirst(hits, doc, false, p)
                && forall q :: 0 <= q < |hits| && Matches(hits[q], other, false) ==> p < q
  }

  /** Documents come in the order of their first hits, each once. */
  lemma {:induction false} RankingIsByFirstHit(hits: seq<SearchHit>, j: nat, k: nat)
    requires j < k < |Ranking(hits)|
    ensures Ranking(hits)[j] != Ranking(hits)[k]
    ensures HasHitBeforeAll(hits, Ranking(hits)[j], Ranking(hits)[k])
  {
    var init, last := hits[..|hits| - 1], hits[|hits| - 1];
    var doc, other := Ranking(hits)[j], Ranking(hits)[k];
    assert doc in Ranking(init);
    if k < |Ranking(init)| {
      RankingIsByFirstHit(init, j, k);
      var p :| IsFirst(init, doc, false, p)
               && forall q :: 0 <= q < |init| && Matches(init[q], other, false) ==> p < q;
      ExtendFirst(hits, doc, p);
      assert IsFirst(hits, doc, false, p);
    } else {
      FirstExists(init, doc);
      var p :| IsFirst(init, doc, false, p);
      ExtendFirst(hits, doc, p);
      assert other !in Ranking(init);
      assert forall q :: 0 <= q < |init| ==> init[q].documentId != other && hits[q] == init[q];
    }
  }

  lemma ExtendFirst(hits: seq<SearchHit>, doc: int, p: int)
    requires hits != [] && IsFirst(hits[..|hits| - 1], doc, false, p)
    ensures IsFirst(hits, doc, false, p)
    ensures forall q :: 0 <= q < |hits| - 1 ==> hits[..|hits| - 1][q] == hits[q]
  {
    forall q | 0 <= q < p
      ensures !Matches(hits[q], doc, false)
    {
      assert hits[..|hits| - 1][q] == hits[q];
    }
  }

  lemma FirstExists(hits: seq<SearchHit>, doc: int)
    requires doc in Ranking(hits)
    ensures exists p :: IsFirst(hits, doc, false, p)
  {
    RankedHaveHits(hits);
    FirstMatchIsFirst(hits, doc, false);
  }

  predicate ByDistance(hits: seq<SearchHit>) {
    forall j, k :: 0 <= j < k < |hits| ==> hits[j].distance <= hits[k].distance
  }

  /** For hits in order of distance, match scores never rise down the page. */
  lemma ScoresDescend(hits: seq<SearchHit>, limit: nat, includeLocation: bool, j: nat, k: nat)
    requires ByDistance(hits) && j < k < |Collapsed(hits, limit, includeLocation)|
    ensures var page := Collapsed(hits, limit, includeLocation);
            page[j].matchScore >= page[k].matchScore
  {
    var doc, other := Ranking(hits)[j], Ranking(hits)[k];
    RankingIsByFirstHit(hits, j, k);
    FirstMatchIsFirst(hits, doc, false);
    FirstMatchIsFirst(hits, other, false);
    RankedHaveHits(hits);
    var p :| IsFirst(hits, doc, false, p) && forall q :: 0 <= q < |hits| && Matches(hits[q], other, false) ==> p < q;
    var q :| IsFirst(hits, other, false, q) && hits[q] == FirstMatch(hits, other, false).value;
    FirstIsUnique(hits, doc, p);
    hide Ranking, FirstMatch;
  }

  lemma FirstIsUnique(hits: seq<SearchHit>, doc: int, p: int)
    requires IsFirst(hits, doc, false, p)
    ensures FirstMatch(hits, doc, false) == Some(hits[p])
  {
    FirstMatchIsFirst(hits, doc, false);
    hide FirstMatch;
    var k :| IsFirst(hits, doc, false, k) && hits[k] == FirstMatch(hits, doc, false).value;
    assert Matches(hits[k], doc, false) && Matches(hits[p], doc, false);
  }

  /** Hits of a search come in order of distance. */
  lemma HitListIsByDistance(hits: seq<SearchHit>)
    requires HitsAreOrdered(hits)
    ensures ByDistance(hits)
  {
    forall j, k | 0 <= j < k < |hits|
      ensures hits[j].distance <= hits[k].distance
    {
      assert HitBefore(hits[j], hits[k]);
    }
  }

  // -------------------------------------------------------------------------
  // Prefixes
  // -------------------------------------------------------------------------

  lemma {:induction false} PrefixRanking(hits: seq<SearchHit>, n: nat)
    requires n <= |hits|
    ensures Ranking(hits[..n]) <= Ranking(hits)
    ensures forall doc, located :: FirstMatch(hits[..n], doc, located).Some? ==>
              FirstMatch(hits, doc, located) == FirstMatch(hits[..n], doc, located)
    decreases |hits|
  {
    if n == |hits| {
      assert hits[..n] == hits;
    } else {
      var init := hits[..|hits| - 1];
      assert init[..n] == hits[..n];
      PrefixRanking(init, n);
      hide Matches;
    }
  }

  /** The same document with the same score; the location may still improve with later hits. */
  predicate SameRank(x: DocumentResult, y: DocumentResult) { x.filepath == y.filepath && x.matchScore == y.matchScore }

  /** Collapsing a prefix of the hits gives a prefix of the ranked documents. */
  lemma PrefixOfHits(hits: seq<SearchHit>, n: nat, limit: nat, includeLocation: bool)
    requires n <= |hits|
    ensures var part, whole := Collapsed(hits[..n], limit, includeLocation), Collapsed(hits, limit, includeLocation);
            && |part| <= |whole|
            && forall k :: 0 <= k < |part| ==> SameRank(part[k], whole[k])
  {
    PrefixRanking(hits, n);
    RankedHaveHits(hits[..n]);
    hide FirstMatch;
    var part, whole := Collapsed(hits[..n], limit, includeLocation), Collapsed(hits, limit, includeLocation);
    forall k | 0 <= k < |part|
      ensures SameRank(part[k], whole[k])
    {
      assert Ranking(hits[..n])[k] == Ranking(hits)[k];
      assert Ranking(hits[..n])[k] in Ranking(hits[..n]);
    }
  }
}
