/** How many chunk hits must be read so that a page of documents is right: four times the page's limit,
    and when that is enough for its documents and scores, and for its locations. */
module RawLimit {
  import opened Prelude
  import opened Types
  import opened Tables
  import opened VectorSearch
  import opened Collapse
  import opened CollapseResults

  // -------------------------------------------------------------------------
  // Counting hits by document
  // -------------------------------------------------------------------------

  function Occurrences(hits: seq<SearchHit>, doc: int): nat {
    if hits == [] then 0
    else Occurrences(hits[..|hits| - 1], doc) + if hits[|hits| - 1].documentId == doc then 1 else 0
  }

  function TotalOf(hits: seq<SearchHit>, docs: seq<int>): nat {
    if docs == [] then 0 else TotalOf(hits, docs[..|docs| - 1]) + Occurrences(hits, docs[|docs| - 1])
  }

  lemma {:induction false} UnrollTotal(hits: seq<SearchHit>, docs: seq<int>)
    requires hits != [] && AllDistinct(docs)
    ensures TotalOf(hits, docs)
         == TotalOf(hits[..|hits| - 1], docs) + if hits[|hits| - 1].documentId in docs then 1 else 0
  {
    if docs != [] {
      var init := docs[..|docs| - 1];
      UnrollTotal(hits, init);
      assert docs == init + [docs[|docs| - 1]];
    }
  }

  lemma {:induction false} AbsentHasNone(hits: seq<SearchHit>, doc: int)
    requires doc !in Ranking(hits)
    ensures Occurrences(hits, doc) == 0
  {
    if hits != [] {
      var init := hits[..|hits| - 1];
      assert hits == init + [hits[|hits| - 1]];
      AbsentHasNone(init, doc);
    }
  }

  lemma {:induction false} RankingAccountsForAll(hits: seq<SearchHit>)
    ensures TotalOf(hits, Ranking(hits)) == |hits|
  {
    if hits != [] {
      var init, doc := hits[..|hits| - 1], hits[|hits| - 1].documentId;
      RankingAccountsForAll(init);
      UnrollTotal(hits, Ranking(init));
      if doc !in Ranking(init) {
        AbsentHasNone(init, doc);
        assert Ranking(hits)[..|Ranking(hits)| - 1] == Ranking(init);
      }
    }
  }

  lemma {:induction false} TotalIsBounded(hits: seq<SearchHit>, docs: seq<int>, most: nat)
    requires forall doc :: Occurrences(hits, doc) <= most
    ensures TotalOf(hits, docs) <= most * |docs|
  {
    if docs != [] {
      TotalIsBounded(hits, docs[..|docs| - 1], most);
      assert most * |docs| == most * (|docs| - 1) + most;
    }
  }

  lemma {:induction false} PrefixOccurs(hits: seq<SearchHit>, n: nat, doc: int)
    requires n <= |hits|
    ensures Occurrences(hits[..n], doc) <= Occurrences(hits, doc)
    decreases |hits|
  {
    if n == |hits| {
      assert hits[..n] == hits;
    } else {
      assert hits[..|hits| - 1][..n] == hits[..n];
      PrefixOccurs(hits[..|hits| - 1], n, doc);
    }
  }

  // -------------------------------------------------------------------------
  // Enough hits
  // -------------------------------------------------------------------------

  /** No document has more than `most` hits. */
  ghost predicate AtMostEach(hits: seq<SearchHit>, most: nat) { forall doc :: Occurrences(hits, doc) <= most }

  /** The hits that are read give the same documents with the same scores as all hits would. */
  ghost predicate KeepsPage(hits: seq<SearchHit>, limit: nat, includeLocation: bool)
    requires limit <= MAX_SEARCH_LIMIT
  {
    var read := hits[..Min(ExpandedRawLimit(limit), |hits|)];
    var page, whole := Collapsed(read, limit, includeLocation), Collapsed(hits, limit, includeLocation);
    && |page| == |whole|
    && forall k :: 0 <= k < |page| ==> SameRank(page[k], whole[k])
  }

  /** So many hits name at least `limit` documents. */
  lemma NamesEnough(hits: seq<SearchHit>, limit: nat, most: nat)
    requires AtMostEach(hits, most) && limit > 0 && most * (limit - 1) < |hits|
    ensures |Ranking(hits)| >= limit
  {
    hide Ranking, Occurrences, TotalOf;
    var count := |Ranking(hits)|;
    RankingAccountsForAll(hits);
    TotalIsBounded(hits, Ranking(hits), most);
    hide AtMostEach;
    if most > 0 { LessFactor(limit - 1, count, most); }
  }

  lemma EnoughRead(hits: seq<SearchHit>, limit: nat, most: nat, includeLocation: bool)
    requires 0 < limit <= MAX_SEARCH_LIMIT && most * (limit - 1) < SEARCH_RAW_LIMIT_MULTIPLIER * limit
    requires AtMostEach(hits, most)
    ensures KeepsPage(hits, limit, includeLocation)
  {
    var n := Min(ExpandedRawLimit(limit), |hits|);
    PrefixOfHits(hits, n, limit, includeLocation);
    if n == |hits| {
      assert hits[..n] == hits;
    } else {
      forall doc ensures Occurrences(hits[..n], doc) <= most { PrefixOccurs(hits, n, doc); }
      NamesEnough(hits[..n], limit, most);
    }
  }

  // -------------------------------------------------------------------------
  // Too few hits
  // -------------------------------------------------------------------------

  /** A path of its own for every document. */
  function PathOf(doc: nat): Path { seq(doc + 1, _ => 0x61) }

  function HitAt(doc: nat, id: nat, distance: real): SearchHit {
    SearchHit(doc, PathOf(doc), id, ChunkRef(Content, Min(id, ISIZE_MAX), Min(id + 1, ISIZE_MAX)), distance)
  }

  /** `docs` documents with `most` near hits each, then `rows` near hits of one more document. */
  function Crowd(docs: nat, rows: nat, most: nat): seq<SearchHit>
    decreases docs, rows
  {
    if rows > 0 then Crowd(docs, rows - 1, most) + [HitAt(docs, |Crowd(docs, rows - 1, most)|, 0.0)]
    else if docs > 0 then Crowd(docs - 1, most, most)
    else []
  }

  lemma {:induction false} CrowdHits(docs: nat, rows: nat, most: nat)
    ensures |Crowd(docs, rows, most)| == docs * most + rows
    ensures forall k :: 0 <= k < |Crowd(docs, rows, most)| ==>
              Crowd(docs, rows, most)[k].embeddingId == k && Crowd(docs, rows, most)[k].distance == 0.0
    decreases docs, rows
  {
    if rows > 0 {
      CrowdHits(docs, rows - 1, most);
    } else if docs > 0 {
      CrowdHits(docs - 1, most, most);
      assert (docs - 1) * most + most == docs * most;
    }
  }

  /** `docs` documents have `most` hits each, and one more has `rows`. */
  ghost predicate IsCrowd(hits: seq<SearchHit>, docs: nat, rows: nat, most: nat) {
    && (forall doc :: Occurrences(hits, doc) == if 0 <= doc < docs then most else if doc == docs then rows else 0)
    && (forall doc :: doc in Ranking(hits) <==> 0 <= doc < docs || (doc == docs && rows > 0))
    && |Ranking(hits)| == docs + if rows > 0 then 1 else 0
  }

  lemma {:induction false} CrowdCounts(docs: nat, rows: nat, most: nat)
    requires most > 0
    ensures IsCrowd(Crowd(docs, rows, most), docs, rows, most)
    decreases docs, rows
  {
    if rows > 0 {
      CrowdCounts(docs, rows - 1, most);
      CrowdGrows(Crowd(docs, rows - 1, most), docs, rows, most);
    } else if docs > 0 {
      CrowdCounts(docs - 1, most, most);
      CrowdEnds(Crowd(docs - 1, most, most), docs, most);
    }
  }

  lemma CrowdGrows(hits: seq<SearchHit>, docs: nat, rows: nat, most: nat)
    requires rows > 0 && IsCrowd(hits, docs, rows - 1, most)
    ensures IsCrowd(hits + [HitAt(docs, |hits|, 0.0)], docs, rows, most)
  {
    OneMoreHit(hits, HitAt(docs, |hits|, 0.0));
    hide Ranking, Occurrences;
  }

  lemma CrowdEnds(hits: seq<SearchHit>, docs: nat, most: nat)
    requires docs > 0 && most > 0 && IsCrowd(hits, docs - 1, most, most)
    ensures IsCrowd(hits, docs, 0, most)
  {
    hide Ranking, Occurrences;
  }

  lemma OneMoreHit(hits: seq<SearchHit>, hit: SearchHit)
    ensures forall doc ::
              Occurrences(hits + [hit], doc) == Occurrences(hits, doc) + if hit.documentId == doc then 1 else 0
    ensures Ranking(hits + [hit])
         == if hit.documentId in Ranking(hits) then Ranking(hits) else Ranking(hits) + [hit.documentId]
  {
    var after := hits + [hit];
    assert after[..|after| - 1] == hits;
  }

  lemma TooFewRead(limit: nat, most: nat, includeLocation: bool) returns (hits: seq<SearchHit>)
    requires 0 < limit <= MAX_SEARCH_LIMIT && most * (limit - 1) >= SEARCH_RAW_LIMIT_MULTIPLIER * limit
    ensures HitsAreOrdered(hits) && AtMostEach(hits, most) && !KeepsPage(hits, limit, includeLocation)
  {
    hide Ranking, Occurrences, Crowd;
    var near, n := Crowd(limit - 1, 0, most), ExpandedRawLimit(limit);
    CrowdHits(limit - 1, 0, most);
    assert most > 0;
    CrowdCounts(limit - 1, 0, most);
    hits := near + [HitAt(limit - 1, |near|, 1.0)];
    OneMoreHit(near, HitAt(limit - 1, |near|, 1.0));
    assert n <= |near|;
    assert near[..n] == hits[..n];
    PrefixRanking(near, n);
  }

  // -------------------------------------------------------------------------
  // Exactly when
  // -------------------------------------------------------------------------

  /** Four times the limit is enough for the documents and scores of all searches with at most `most` hits
      per document exactly when `most * (limit - 1) < 4 * limit`. */
  lemma FourfoldIsEnoughIff(limit: nat, most: nat, includeLocation: bool)
    requires 0 < limit <= MAX_SEARCH_LIMIT
    ensures (forall hits :: HitsAreOrdered(hits) && AtMostEach(hits, most) ==> KeepsPage(hits, limit, includeLocation))
            <==> most * (limit - 1) < 4 * limit
  {
    if most * (limit - 1) < SEARCH_RAW_LIMIT_MULTIPLIER * limit {
      forall hits | HitsAreOrdered(hits) && AtMostEach(hits, most)
        ensures KeepsPage(hits, limit, includeLocation)
      {
        EnoughRead(hits, limit, most, includeLocation);
      }
    } else {
      var hits := TooFewRead(limit, most, includeLocation);
    }
  }

  // -------------------------------------------------------------------------
  // Locations
  // -------------------------------------------------------------------------

  /** The hits that are read give the whole page that all hits would, locations included. */
  predicate KeepsLocations(hits: seq<SearchHit>, limit: nat)
    requires limit <= MAX_SEARCH_LIMIT
  {
    Collapsed(hits[..Min(ExpandedRawLimit(limit), |hits|)], limit, true) == Collapsed(hits, limit, true)
  }

  lemma {:induction false} TwoHitsOccur(hits: seq<SearchHit>, n: nat, doc: int)
    requires n <= |hits| && FirstMatch(hits[..n], doc, false).Some?
    requires FirstMatch(hits[..n], doc, true).None? && FirstMatch(hits, doc, true).Some?
    ensures Occurrences(hits, doc) >= 2
    decreases |hits|
  {
    var init := hits[..|hits| - 1];
    assert hits[..|hits|] == hits;
    if n < |hits| {
      assert init[..n] == hits[..n];
      if FirstMatch(init, doc, true).Some? {
        TwoHitsOccur(init, n, doc);
      } else {
        PrefixRanking(init, n);
        MatchOccurs(init, doc);
      }
    }
  }

  lemma {:induction false} MatchOccurs(hits: seq<SearchHit>, doc: int)
    requires FirstMatch(hits, doc, false).Some?
    ensures Occurrences(hits, doc) >= 1
  {
    if FirstMatch(hits[..|hits| - 1], doc, false).Some? { MatchOccurs(hits[..|hits| - 1], doc); }
  }

  lemma SingleHitsKeepLocations(hits: seq<SearchHit>, limit: nat, most: nat)
    requires 0 < limit <= MAX_SEARCH_LIMIT && AtMostEach(hits, most) && most <= 1
    ensures KeepsLocations(hits, limit)
  {
    var n := Min(ExpandedRawLimit(limit), |hits|);
    var read := hits[..n];
    EnoughRead(hits, limit, most, true);
    PrefixRanking(hits, n);
    RankedHaveHits(read);
    RankedHaveHits(hits);
    var page, whole := Collapsed(read, limit, true), Collapsed(hits, limit, true);
    hide FirstMatch, Occurrences;
    forall k | 0 <= k < |page|
      ensures page[k] == whole[k]
    {
      var doc := Ranking(hits)[k];
      assert Ranking(read)[k] == doc;
      if FirstMatch(read, doc, true).None? && FirstMatch(hits, doc, true).Some? {
        TwoHitsOccur(hits, n, doc);
      }
    }
  }

  /** A filename hit, `count - 1` hits of other documents, and the content of the first document. */
  function Filled(count: nat): (hits: seq<SearchHit>)
    requires count > 0
    ensures |hits| == count
  {
    if count == 1 then [SearchHit(0, PathOf(0), 0, ChunkRef(Filename, 0, 0), 0.0)]
    else Filled(count - 1) + [HitAt(count - 1, count - 1, 0.0)]
  }

  lemma {:induction false} FilledHits(count: nat)
    requires count > 0
    ensures forall k :: 0 <= k < count ==> Filled(count)[k].embeddingId == k && Filled(count)[k].distance == 0.0
    ensures forall doc :: Occurrences(Filled(count), doc) == if 0 <= doc < count then 1 else 0
    ensures Ranking(Filled(count)) != [] && Ranking(Filled(count))[0] == 0
    ensures FirstMatch(Filled(count), 0, false) == Some(SearchHit(0, PathOf(0), 0, ChunkRef(Filename, 0, 0), 0.0))
    ensures FirstMatch(Filled(count), 0, true) == None
  {
    if count > 1 {
      FilledHits(count - 1);
      assert Filled(count)[..count - 1] == Filled(count - 1);
    } else {
      assert Filled(1)[..0] == [];
    }
  }

  lemma LateContentMovesLocation(limit: nat) returns (hits: seq<SearchHit>)
    requires 0 < limit <= MAX_SEARCH_LIMIT
    ensures HitsAreOrdered(hits) && AtMostEach(hits, 2) && !KeepsLocations(hits, limit)
  {
    var n := ExpandedRawLimit(limit);
    var read, late := Filled(n), SearchHit(0, PathOf(0), n, ChunkRef(Content, 7, 9), 1.0);
    FilledHits(n);
    hits := read + [late];
    assert hits[..n] == read;
    OneMoreHit(read, late);
    assert FirstMatch(hits, 0, true) == Some(late) && FirstMatch(hits, 0, false) == FirstMatch(read, 0, false);
    hide FirstMatch, Occurrences, Ranking, Filled;
    assert Collapsed(read, limit, true)[0].byteEnd == Some(0);
    assert Collapsed(hits, limit, true)[0].byteEnd == Some(9);
  }

  /** With locations four times the limit is enough exactly when no document has a second hit: a later
      content hit would still move the location away from a filename. */
  lemma LocationsAreKeptIff(limit: nat, most: nat)
    requires 0 < limit <= MAX_SEARCH_LIMIT
    ensures (forall hits :: HitsAreOrdered(hits) && AtMostEach(hits, most) ==> KeepsLocations(hits, limit))
            <==> most <= 1
  {
    if most <= 1 {
      forall hits | HitsAreOrdered(hits) && AtMostEach(hits, most)
        ensures KeepsLocations(hits, limit)
      {
        SingleHitsKeepLocations(hits, limit, most);
      }
    } else {
      var hits := LateContentMovesLocation(limit);
      assert AtMostEach(hits, most);
    }
  }
}
