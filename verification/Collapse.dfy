/** Collapsing ranked chunk hits to ranked documents. */
module Collapse {
  import opened Prelude
  import opened Types
  import opened Tables
  import opened VectorSearch

  const SEARCH_RAW_LIMIT_MULTIPLIER: nat := 4
  const SEARCH_RAW_LIMIT_CAP: nat := 400
  const MAX_SEARCH_LIMIT: nat := 100

  datatype DocumentResult = DocumentResult(
    filepath: Path, matchScore: real, byteStart: Option<int>, byteEnd: Option<int>)

  function DistanceToScore(distance: real): (score: real)
    ensures 0.0 <= score <= 1.0
    ensures score == 1.0 <==> distance <= 0.0
    ensures score == 0.0 <==> distance >= 2.0
    ensures 0.0 <= distance <= 2.0 ==> distance + 2.0 * score == 2.0
  {
    var raw := (2.0 - distance) / 2.0;
    if raw < 0.0 then 0.0 else if raw > 1.0 then 1.0 else raw
  }

  function ExpandedRawLimit(limit: usize): usize {
    Min(Min(limit * SEARCH_RAW_LIMIT_MULTIPLIER, USIZE_MAX), SEARCH_RAW_LIMIT_CAP)
  }

  // -------------------------------------------------------------------------
  // Specification
  // -------------------------------------------------------------------------

  /** Distinct documents in order of their first hit. */
  function Ranking(hits: seq<SearchHit>): (docs: seq<int>)
    ensures forall doc :: doc in docs <==> exists k :: 0 <= k < |hits| && hits[k].documentId == doc
    ensures AllDistinct(docs)
    ensures |docs| <= |hits|
  {
    if hits == [] then []
    else
      var init, last := hits[..|hits| - 1], hits[|hits| - 1];
      assert hits == init + [last];
      var docs := Ranking(init);
      if last.documentId in docs then docs else docs + [last.documentId]
  }

  /** The hit belongs to the document, and is not its filename chunk if only located hits count. */
  predicate Matches(hit: SearchHit, doc: int, located: bool) {
    hit.documentId == doc && (located ==> !hit.chunk.chunkType.Filename?)
  }

  ghost predicate IsFirst(hits: seq<SearchHit>, doc: int, located: bool, k: int) {
    && 0 <= k < |hits| && Matches(hits[k], doc, located)
    && forall j :: 0 <= j < k ==> !Matches(hits[j], doc, located)
  }

  function FirstMatch(hits: seq<SearchHit>, doc: int, located: bool): Option<SearchHit> {
    if hits == [] then None
    else
      var init, last := hits[..|hits| - 1], hits[|hits| - 1];
      if FirstMatch(init, doc, located).Some? then FirstMatch(init, doc, located)
      else if Matches(last, doc, located) then Some(last)
      else None
  }

  /** `FirstMatch` is the earliest matching hit, and fails only when there is none. */
  lemma {:induction false} FirstMatchIsFirst(hits: seq<SearchHit>, doc: int, located: bool)
    ensures match FirstMatch(hits, doc, located)
            case None => forall k :: 0 <= k < |hits| ==> !Matches(hits[k], doc, located)
            case Some(hit) => exists k :: IsFirst(hits, doc, located, k) && hits[k] == hit
  {
    if hits != [] {
      var init, n := hits[..|hits| - 1], |hits| - 1;
      FirstMatchIsFirst(init, doc, located);
      hide Matches;
      if FirstMatch(init, doc, located).Some? {
        var k :| IsFirst(init, doc, located, k) && init[k] == FirstMatch(init, doc, located).value;
        assert IsFirst(hits, doc, located, k);
      } else if Matches(hits[n], doc, located) {
        forall j | 0 <= j < n ensures !Matches(hits[j], doc, located) { assert hits[j] == init[j]; }
        assert IsFirst(hits, doc, located, n);
      } else {
        forall j | 0 <= j <= n ensures !Matches(hits[j], doc, located) { assert j < n ==> hits[j] == init[j]; }
      }
    }
  }

  /** Scored by its first hit; located by its first hit that is not a filename, or else by its first. */
  function ResultFor(hits: seq<SearchHit>, doc: int, includeLocation: bool): DocumentResult
    requires FirstMatch(hits, doc, false).Some?
  {
    var first := FirstMatch(hits, doc, false).value;
    var located := FirstMatch(hits, doc, true);
    var place := if located.Some? then located.value else first;
    DocumentResult(first.filepath, DistanceToScore(first.distance),
                   if includeLocation then Some(place.chunk.start) else None,
                   if includeLocation then Some(place.chunk.end) else None)
  }

  function CollapsedCount(hits: seq<SearchHit>, limit: nat): nat { Min(|Ranking(hits)|, limit) }

  function Collapsed(hits: seq<SearchHit>, limit: nat, includeLocation: bool): (results: seq<DocumentResult>)
    ensures |results| == CollapsedCount(hits, limit)
  {
    RankedHaveHits(hits);
    seq(CollapsedCount(hits, limit), k requires 0 <= k < CollapsedCount(hits, limit) =>
      ResultFor(hits, Ranking(hits)[k], includeLocation))
  }

  lemma {:induction false} RankedHaveHits(hits: seq<SearchHit>)
    ensures forall doc :: doc in Ranking(hits) ==> FirstMatch(hits, doc, false).Some?
  {
    if hits != [] { RankedHaveHits(hits[..|hits| - 1]); }
  }

  // -------------------------------------------------------------------------
  // The loop
  // -------------------------------------------------------------------------

  /** Where the document's result is, and whether its location is still a filename's. */
  datatype Slot = Slot(index: nat, fromFilename: bool)

  lemma UnrollMatch(hits: seq<SearchHit>, k: nat, doc: int, located: bool)
    requires k < |hits|
    ensures FirstMatch(hits[..k + 1], doc, located)
         == match FirstMatch(hits[..k], doc, located)
            case Some(hit) => Some(hit)
            case None => if Matches(hits[k], doc, located) then Some(hits[k]) else None
  {
    assert hits[..k + 1][..k] == hits[..k];
  }

  lemma UnrollRanking(hits: seq<SearchHit>, k: nat)
    requires k < |hits|
    ensures Ranking(hits[..k + 1])
         == if hits[k].documentId in Ranking(hits[..k]) then Ranking(hits[..k])
            else Ranking(hits[..k]) + [hits[k].documentId]
  {
    assert hits[..k + 1][..k] == hits[..k];
  }

  /** One result changes with one more hit only if the hit is the document's first located one. */
  lemma UnrollResult(hits: seq<SearchHit>, k: nat, doc: int, includeLocation: bool)
    requires k < |hits| && FirstMatch(hits[..k], doc, false).Some?
    ensures FirstMatch(hits[..k + 1], doc, false).Some?
    ensures ResultFor(hits[..k + 1], doc, includeLocation)
         == if includeLocation && FirstMatch(hits[..k], doc, true).None? && Matches(hits[k], doc, true) then
              ResultFor(hits[..k], doc, includeLocation).(byteStart := Some(hits[k].chunk.start),
                                                          byteEnd := Some(hits[k].chunk.end))
            else ResultFor(hits[..k], doc, includeLocation)
  {
    UnrollMatch(hits, k, doc, false);
    UnrollMatch(hits, k, doc, true);
  }

  /** What one more hit does to the collapsed list. */
  lemma UnrollCollapsed(hits: seq<SearchHit>, i: nat, limit: nat, includeLocation: bool)
    requires i < |hits|
    ensures var before := Collapsed(hits[..i], limit, includeLocation);
            var after := Collapsed(hits[..i + 1], limit, includeLocation);
            var docs, doc := Ranking(hits[..i]), hits[i].documentId;
            && |after| == |before| + (if doc !in docs && |before| != limit then 1 else 0)
            && (forall j :: 0 <= j < |before| && docs[j] != doc ==> after[j] == before[j])
            && (forall j :: 0 <= j < |before| && docs[j] == doc ==>
                  after[j]
                  == if includeLocation && FirstMatch(hits[..i], doc, true).None? && Matches(hits[i], doc, true)
                     then before[j].(byteStart := Some(hits[i].chunk.start), byteEnd := Some(hits[i].chunk.end))
                     else before[j])
            && (|after| > |before| ==> after[|before|] == FirstResult(hits[i], includeLocation))
  {
    var before, after := Collapsed(hits[..i], limit, includeLocation), Collapsed(hits[..i + 1], limit, includeLocation);
    var docs, doc := Ranking(hits[..i]), hits[i].documentId;
    UnrollRanking(hits, i);
    RankedHaveHits(hits[..i]);
    RankedHaveHits(hits[..i + 1]);
    hide FirstMatch, Ranking, ResultFor, Matches;
    forall j | 0 <= j < |before|
      ensures after[j] == ResultFor(hits[..i + 1], docs[j], includeLocation)
      ensures docs[j] != doc ==> after[j] == before[j]
    {
      UnrollResult(hits, i, docs[j], includeLocation);
      OtherDocument(hits[i], docs[j]);
    }
    if |after| > |before| {
      UnrollFirst(hits, i, includeLocation);
    }
    if doc in docs { UnrollResult(hits, i, doc, includeLocation); }
  }

  function FirstResult(hit: SearchHit, includeLocation: bool): DocumentResult {
    DocumentResult(hit.filepath, DistanceToScore(hit.distance),
                   if includeLocation then Some(hit.chunk.start) else None,
                   if includeLocation then Some(hit.chunk.end) else None)
  }

  lemma OtherDocument(hit: SearchHit, doc: int)
    ensures hit.documentId != doc ==> !Matches(hit, doc, true) && !Matches(hit, doc, false)
  {
  }

  lemma UnrollFirst(hits: seq<SearchHit>, i: nat, includeLocation: bool)
    requires i < |hits| && hits[i].documentId !in Ranking(hits[..i])
    ensures var doc := hits[i].documentId;
            && FirstMatch(hits[..i + 1], doc, false).Some?
            && ResultFor(hits[..i + 1], doc, includeLocation) == FirstResult(hits[i], includeLocation)
            && FirstMatch(hits[..i + 1], doc, true).None? == hits[i].chunk.chunkType.Filename?
  {
    var doc := hits[i].documentId;
    UnrollMatch(hits, i, doc, false);
    UnrollMatch(hits, i, doc, true);
    UnrankedHasNoMatch(hits[..i], doc, false);
    UnrankedHasNoMatch(hits[..i], doc, true);
  }

  lemma {:induction false} UnrankedHasNoMatch(hits: seq<SearchHit>, doc: int, located: bool)
    requires doc !in Ranking(hits)
    ensures FirstMatch(hits, doc, located).None?
  {
    FirstMatchIsFirst(hits, doc, located);
  }

  ghost predicate SlotsMatch(slots: map<int, Slot>, hits: seq<SearchHit>, count: nat, includeLocation: bool) {
    var docs := Ranking(hits);
    && count <= |docs|
    && (forall j :: 0 <= j < count ==>
          docs[j] in slots && slots[docs[j]] == Slot(j, includeLocation && FirstMatch(hits, docs[j], true).None?))
    && (forall doc :: doc in slots ==> slots[doc].index < count && docs[slots[doc].index] == doc)
  }

  /** What one more hit does to the ranking and to which documents still lack a located hit. */
  ghost predicate IsUnrolled(before: seq<SearchHit>, after: seq<SearchHit>, hit: SearchHit) {
    && Ranking(before) <= Ranking(after)
    && forall d :: FirstMatch(after, d, true).None? <==> FirstMatch(before, d, true).None? && !Matches(hit, d, true)
  }

  lemma Unroll(hits: seq<SearchHit>, i: nat)
    requires i < |hits|
    ensures IsUnrolled(hits[..i], hits[..i + 1], hits[i])
  {
    UnrollRanking(hits, i);
    forall d
      ensures FirstMatch(hits[..i + 1], d, true).None?
              <==> FirstMatch(hits[..i], d, true).None? && !Matches(hits[i], d, true)
    {
      UnrollMatch(hits, i, d, true);
    }
    hide FirstMatch, Ranking;
  }

  lemma KnownSlot(slots: map<int, Slot>, before: seq<SearchHit>, after: seq<SearchHit>, hit: SearchHit, count: nat,
                  includeLocation: bool)
    requires IsUnrolled(before, after, hit) && SlotsMatch(slots, before, count, includeLocation)
    requires hit.documentId in slots
    ensures var slot := slots[hit.documentId];
            SlotsMatch(slots[hit.documentId := Slot(slot.index, slot.fromFilename && hit.chunk.chunkType.Filename?)],
                       after, count, includeLocation)
  {
    hide FirstMatch, Ranking;
  }

  lemma IgnoredSlot(slots: map<int, Slot>, before: seq<SearchHit>, after: seq<SearchHit>, hit: SearchHit, count: nat,
                    includeLocation: bool)
    requires IsUnrolled(before, after, hit) && SlotsMatch(slots, before, count, includeLocation)
    requires hit.documentId !in slots
    ensures SlotsMatch(slots, after, count, includeLocation)
  {
    hide FirstMatch, Ranking;
  }

  lemma NewSlot(slots: map<int, Slot>, hits: seq<SearchHit>, i: nat, includeLocation: bool)
    requires i < |hits| && hits[i].documentId !in Ranking(hits[..i])
    requires SlotsMatch(slots, hits[..i], |Ranking(hits[..i])|, includeLocation)
    ensures var count := |Ranking(hits[..i])|;
            SlotsMatch(slots[hits[i].documentId := Slot(count, includeLocation && hits[i].chunk.chunkType.Filename?)],
                       hits[..i + 1], count + 1, includeLocation)
  {
    Unroll(hits, i);
    UnrollRanking(hits, i);
    UnrollFirst(hits, i, includeLocation);
    hide FirstMatch, Ranking;
  }

  method CollapseToDocuments(hits: seq<SearchHit>, limit: nat, includeLocation: bool)
    returns (results: seq<DocumentResult>)
    ensures results == Collapsed(hits, limit, includeLocation)
  {
    hide Ranking, FirstMatch, ResultFor, Collapsed;
    var slots: map<int, Slot> := map[];
    results := [];
    assert hits[..0] == [];
    assert results == Collapsed([], limit, includeLocation) && SlotsMatch(slots, [], 0, includeLocation) by {
      NothingCollapses(limit, includeLocation);
    }
    for i := 0 to |hits|
      invariant results == Collapsed(hits[..i], limit, includeLocation)
      invariant SlotsMatch(slots, hits[..i], |results|, includeLocation)
    {
      var hit := hits[i];
      var doc := hit.documentId;
      UnrollCollapsed(hits, i, limit, includeLocation);
      Unroll(hits, i);
      hide IsUnrolled, SlotsMatch;
      SlotsAreRanked(slots, hits[..i], |results|, limit, includeLocation);
      if doc in slots {
        KnownSlot(slots, hits[..i], hits[..i + 1], hit, |results|, includeLocation);
        var slot := slots[doc];
        if includeLocation && slot.fromFilename && !hit.chunk.chunkType.Filename? {
          results := results[slot.index := results[slot.index].(byteStart := Some(hit.chunk.start),
                                                               byteEnd := Some(hit.chunk.end))];
          slots := slots[doc := Slot(slot.index, false)];
        } else {
          assert slots[doc := Slot(slot.index, slot.fromFilename && hit.chunk.chunkType.Filename?)] == slots;
        }
      } else if |results| == limit {
        IgnoredSlot(slots, hits[..i], hits[..i + 1], hit, |results|, includeLocation);
      } else {
        NewSlot(slots, hits, i, includeLocation);
        results := results + [FirstResult(hit, includeLocation)];
        slots := slots[doc := Slot(|results| - 1, includeLocation && hit.chunk.chunkType.Filename?)];
      }
    }
    assert hits[..|hits|] == hits;
  }

  lemma NothingCollapses(limit: nat, includeLocation: bool)
    ensures Collapsed([], limit, includeLocation) == []
    ensures SlotsMatch(map[], [], 0, includeLocation)
  {
  }

  lemma SlotsAreRanked(slots: map<int, Slot>, hits: seq<SearchHit>, count: nat, limit: nat, includeLocation: bool)
    requires SlotsMatch(slots, hits, count, includeLocation) && count == CollapsedCount(hits, limit)
    ensures forall doc :: doc in slots ==>
              && doc in Ranking(hits)
              && slots[doc].index < count && Ranking(hits)[slots[doc].index] == doc
              && (slots[doc].fromFilename <==> includeLocation && FirstMatch(hits, doc, true).None?)
    ensures count < limit ==> count == |Ranking(hits)| && forall doc :: doc in Ranking(hits) ==> doc in slots
  {
    hide FirstMatch, Ranking;
  }
}
