/** What the chunk plans promise: coverage, sizes, overlaps, progress, and the closed form. */
module ChunkCoverage {
  import opened Prelude
  import opened Utf8
  import opened Lines
  import opened Breakpoints
  import opened Chunking

  // -------------------------------------------------------------------------
  // Coverage
  // -------------------------------------------------------------------------

  /** A non-empty run of whole scalars, no longer than `chunkSize` unless it is a single scalar. */
  predicate IsChunk(content: seq<byte>, chunkSize: nat, span: ChunkSpan) {
    && span.start < span.end <= |content|
    && IsCharBoundary(content, span.start)
    && IsCharBoundary(content, span.end)
    && (span.end - span.start <= chunkSize || span.end - span.start == Width(content[span.start]))
  }

  /** `next` follows `span`: later start, no gap, and the least overlap that meets the request. */
  ghost predicate Follows(content: seq<byte>, overlap: nat, span: ChunkSpan, next: ChunkSpan) {
    && span.end < |content|
    && span.start < next.start <= span.end
    && LeastOverlap(content, overlap, span, next.start)
  }

  ghost predicate Covers(content: seq<byte>, chunkSize: nat, overlap: nat, from: nat, spans: seq<ChunkSpan>) {
    && spans != []
    && spans[0].start == from
    && spans[|spans| - 1].end == |content|
    && (forall k :: 0 <= k < |spans| ==> IsChunk(content, chunkSize, spans[k]))
    && (forall k :: 0 < k < |spans| ==> Follows(content, overlap, spans[k - 1], spans[k]))
  }

  lemma OneScalar(content: seq<byte>, start: nat)
    requires WellFormed(content) && start < |content| && IsCharBoundary(content, start)
    ensures Ceil(content, start + 1) == start + Width(content[start])
  {
    hide WellFormed, IsCharBoundary;
    ScalarEndsAtBoundary(content, start);
    var end := Ceil(content, start + 1);
    if end < start + Width(content[start]) {
      NoBoundaryInsideScalar(content, start, end);
    }
  }

  lemma EndIsChunk(content: seq<byte>, cuts: seq<Breakpoint>, chunkSize: usize, window: usize, start: usize)
    requires WellFormed(content) && IsCharBoundary(content, start)
    requires start < |content| && chunkSize > 0 && ValidCuts(content, cuts)
    ensures IsChunk(content, chunkSize, ChunkSpan(start, ChunkEnd(content, cuts, chunkSize, window, start)))
  {
    hide WellFormed;
    OneScalar(content, start);
    BestIsMaximal(cuts, start, Target(content, start, chunkSize), window);
  }

  lemma {:induction false} SpansCover(content: seq<byte>, cuts: seq<Breakpoint>, chunkSize: usize,
                                      overlap: usize, window: usize, start: usize)
    requires WellFormed(content) && IsCharBoundary(content, start)
    requires start < |content| && chunkSize > 0 && ValidCuts(content, cuts)
    ensures Covers(content, chunkSize, overlap, start, Spans(content, cuts, chunkSize, overlap, window, start))
    decreases |content| - start
  {
    hide WellFormed, ChunkEnd, NextStart, IsChunk;
    EndIsChunk(content, cuts, chunkSize, window, start);
    var end := ChunkEnd(content, cuts, chunkSize, window, start);
    if end < |content| {
      var next := NextStart(content, overlap, start, end);
      SpansCover(content, cuts, chunkSize, overlap, window, next);
    }
  }

  /** Every plan of a non-empty text covers it: first start 0, last end at the end, whole non-empty
      scalars, strictly later starts and no gap. */
  lemma PlanCovers(content: Str, cuts: seq<Breakpoint>, chunkSize: usize, overlap: usize, window: usize)
    requires content != [] && chunkSize > 0 && ValidCuts(content, cuts)
    ensures var spans := Plan(content, cuts, chunkSize, overlap, window);
            Covers(content, if overlap < chunkSize then chunkSize else |content|, overlap, 0, spans)
  {
    hide WellFormed, Spans;
    if chunkSize < |content| && overlap < chunkSize {
      SpansCover(content, cuts, chunkSize, overlap, window, 0);
    }
  }

  lemma StructureChunksCover(content: Str, chunkSize: usize, overlap: usize, window: usize)
    requires content != [] && chunkSize > 0
    ensures var spans := StructurePlan(content, chunkSize, overlap, window);
            Covers(content, if overlap < chunkSize then chunkSize else |content|, overlap, 0, spans)
  {
    hide WellFormed, Scan, Covers, Plan;
    ScannedCutsAreValid(content);
    PlanCovers(content, Scan(content, 0, false), chunkSize, overlap, window);
  }

  lemma FixedChunksCover(content: Str, chunkSize: usize, overlap: usize)
    requires content != [] && chunkSize > 0
    ensures var spans := FixedPlan(content, chunkSize, overlap);
            Covers(content, if overlap < chunkSize then chunkSize else |content|, overlap, 0, spans)
  {
    hide WellFormed, Covers, Plan;
    PlanCovers(content, [], chunkSize, overlap, 0);
  }

  lemma {:induction false} StartsIncrease(content: seq<byte>, chunkSize: nat, overlap: nat, from: nat,
                                          spans: seq<ChunkSpan>, j: nat, k: nat)
    requires Covers(content, chunkSize, overlap, from, spans)
    requires j < k < |spans|
    ensures spans[j].start < spans[k].start
    decreases k
  {
    hide IsChunk, LeastOverlap;
    assert Follows(content, overlap, spans[k - 1], spans[k]);
    if j < k - 1 { StartsIncrease(content, chunkSize, overlap, from, spans, j, k - 1); }
  }

  function Slices(content: seq<byte>, spans: seq<ChunkSpan>): seq<byte>
    requires forall k :: 0 <= k < |spans| ==> spans[k].start <= spans[k].end <= |content|
  {
    if spans == [] then [] else content[spans[0].start..spans[0].end] + Slices(content, spans[1..])
  }

  /** Without overlap the chunks put back together are the text. */
  lemma {:induction false} CoverWithoutOverlap(content: seq<byte>, chunkSize: nat, from: nat, spans: seq<ChunkSpan>)
    requires from <= |content| && Covers(content, chunkSize, 0, from, spans)
    ensures Slices(content, spans) == content[from..]
    decreases |spans|
  {
    var first := spans[0];
    assert IsChunk(content, chunkSize, first);
    if |spans| == 1 {
      assert Slices(content, spans[1..]) == [];
    } else {
      assert Follows(content, 0, spans[0], spans[1]);
      assert spans[1].start == first.end;
      var rest := spans[1..];
      forall k | 0 < k < |rest|
        ensures Follows(content, 0, rest[k - 1], rest[k])
      {
        assert Follows(content, 0, spans[k], spans[k + 1]);
      }
      CoverWithoutOverlap(content, chunkSize, first.end, rest);
      assert content[from..] == content[from..first.end] + content[first.end..];
    }
  }

  lemma StructureChunksConcatenate(content: Str, chunkSize: usize, window: usize)
    requires content != [] && chunkSize > 0
    ensures var spans := StructurePlan(content, chunkSize, 0, window);
            && (forall k :: 0 <= k < |spans| ==> spans[k].start <= spans[k].end <= |content|)
            && Slices(content, spans) == content
  {
    hide WellFormed, StructurePlan, Follows;
    StructureChunksCover(content, chunkSize, 0, window);
    var spans := StructurePlan(content, chunkSize, 0, window);
    forall k | 0 <= k < |spans|
      ensures spans[k].start <= spans[k].end <= |content|
    {
      assert IsChunk(content, chunkSize, spans[k]);
    }
    CoverWithoutOverlap(content, chunkSize, 0, spans);
  }

  // -------------------------------------------------------------------------
  // Progress
  // -------------------------------------------------------------------------

  /** A chunk that does not reach the end is at most `window` bytes short of its target. */
  lemma EndIsNearTarget(content: seq<byte>, cuts: seq<Breakpoint>, chunkSize: usize, window: usize, start: usize)
    requires WellFormed(content) && start < |content| && ValidCuts(content, cuts)
    requires chunkSize > 3 && window >= 3
    ensures var end := ChunkEnd(content, cuts, chunkSize, window, start);
            end == |content| || end >= start + chunkSize - window
  {
    hide WellFormed;
    var target := Target(content, start, chunkSize);
    BestIsMaximal(cuts, start, target, window);
    RoundingIsShort(content, target);
  }

  /** Guaranteed advance of the chunk start. */
  function Advance(chunkSize: nat, overlap: nat, window: nat): int { chunkSize - overlap - window - 3 }

  lemma StepAdvances(content: seq<byte>, cuts: seq<Breakpoint>, chunkSize: usize, overlap: usize,
                     window: usize, start: usize)
    requires WellFormed(content) && start < |content| && ValidCuts(content, cuts)
    requires window >= 3 && Advance(chunkSize, overlap, window) > 0
    ensures var end := ChunkEnd(content, cuts, chunkSize, window, start);
            end < |content| ==>
              && overlap <= end
              && NextStart(content, overlap, start, end) == Floor(content, end - overlap)
              && NextStart(content, overlap, start, end) >= start + Advance(chunkSize, overlap, window)
              && NextStart(content, overlap, start, end) >= end - overlap - 3
  {
    hide WellFormed, IsCharBoundary, ChunkEnd, LeastOverlap;
    var end := ChunkEnd(content, cuts, chunkSize, window, start);
    EndIsNearTarget(content, cuts, chunkSize, window, start);
    if end < |content| {
      RoundingIsShort(content, end - overlap);
    }
  }

  /** From one chunk to the next: a later end, a start that is exactly the rounded-down request, and
      a guaranteed advance. */
  predicate Progresses(content: seq<byte>, overlap: nat, advance: int, span: ChunkSpan, next: ChunkSpan) {
    && span.end < next.end
    && overlap <= span.end
    && next.start == Floor(content, span.end - overlap)
    && next.start >= span.start + advance
  }

  lemma StepProgresses(content: seq<byte>, cuts: seq<Breakpoint>, chunkSize: usize, overlap: usize,
                       window: usize, start: usize)
    requires WellFormed(content) && start < |content| && ValidCuts(content, cuts)
    requires window >= 3 && Advance(chunkSize, overlap, window) > 0
    ensures var end := ChunkEnd(content, cuts, chunkSize, window, start);
            end < |content| ==>
              var next := NextStart(content, overlap, start, end);
              Progresses(content, overlap, Advance(chunkSize, overlap, window), ChunkSpan(start, end),
                         ChunkSpan(next, ChunkEnd(content, cuts, chunkSize, window, next)))
  {
    hide WellFormed, IsCharBoundary, ChunkEnd, NextStart, LeastOverlap;
    StepAdvances(content, cuts, chunkSize, overlap, window, start);
    var end := ChunkEnd(content, cuts, chunkSize, window, start);
    if end < |content| {
      EndIsNearTarget(content, cuts, chunkSize, window, NextStart(content, overlap, start, end));
    }
  }

  lemma OneMoreAdvance(n: nat, advance: int)
    ensures n * advance == (n - 1) * advance + advance
  {
  }

  lemma {:induction false} SpansProgress(content: seq<byte>, cuts: seq<Breakpoint>, chunkSize: usize,
                                         overlap: usize, window: usize, start: usize)
    requires WellFormed(content) && start < |content| && ValidCuts(content, cuts)
    requires window >= 3 && Advance(chunkSize, overlap, window) > 0
    ensures var spans := Spans(content, cuts, chunkSize, overlap, window, start);
            var advance := Advance(chunkSize, overlap, window);
            && (forall k :: 0 < k < |spans| ==> Progresses(content, overlap, advance, spans[k - 1], spans[k]))
            && spans != []
            && spans[0] == ChunkSpan(start, ChunkEnd(content, cuts, chunkSize, window, start))
            && (|spans| - 1) * advance < |content| - start
    decreases |content| - start
  {
    hide WellFormed, IsCharBoundary, ChunkEnd, NextStart, LeastOverlap, Progresses;
    StepProgresses(content, cuts, chunkSize, overlap, window, start);
    StepAdvances(content, cuts, chunkSize, overlap, window, start);
    var end := ChunkEnd(content, cuts, chunkSize, window, start);
    var spans := Spans(content, cuts, chunkSize, overlap, window, start);
    var advance := Advance(chunkSize, overlap, window);
    if end < |content| {
      var next := NextStart(content, overlap, start, end);
      SpansProgress(content, cuts, chunkSize, overlap, window, next);
      var rest := Spans(content, cuts, chunkSize, overlap, window, next);
      assert spans == [ChunkSpan(start, end)] + rest;
      OneMoreAdvance(|rest|, advance);
    }
  }

  /** With the planner's window `w` and a step above `w + 3`: ends strictly increase, the one-scalar
      start is never needed, and the number of chunks is bounded. */
  lemma StructureProgress(content: Str, chunkSize: usize, overlap: usize)
    requires content != [] && overlap < chunkSize
    requires chunkSize - overlap > BreakWindow(chunkSize) + 3
    ensures var spans := StructurePlan(content, chunkSize, overlap, BreakWindow(chunkSize));
            var advance := Advance(chunkSize, overlap, BreakWindow(chunkSize));
            && advance > 0
            && (forall k :: 0 < k < |spans| ==> Progresses(content, overlap, advance, spans[k - 1], spans[k]))
            && |spans| <= CeilDiv(|content|, advance)
  {
    hide WellFormed, Scan, IsCharBoundary, Spans, Progresses;
    ScannedCutsAreValid(content);
    var advance := Advance(chunkSize, overlap, BreakWindow(chunkSize));
    if chunkSize >= |content| {
      CeilDivIs(1, advance, |content|);
    } else {
      var cuts := Scan(content, 0, false);
      SpansProgress(content, cuts, chunkSize, overlap, BreakWindow(chunkSize), 0);
      CeilDivIs(|Spans(content, cuts, chunkSize, overlap, BreakWindow(chunkSize), 0)|, advance, |content|);
    }
  }

  // -------------------------------------------------------------------------
  // Closed form
  // -------------------------------------------------------------------------

  ghost predicate EveryByteIsBoundary(content: seq<byte>) {
    forall k: nat :: k <= |content| ==> IsCharBoundary(content, k)
  }

  /** Chunk `k` of a walk from `start` over one-byte scalars. */
  predicate IsClosedForm(len: nat, chunkSize: nat, overlap: nat, start: nat, k: nat, span: ChunkSpan) {
    && span.start == start + k * (chunkSize - overlap)
    && span.end == Min(span.start + chunkSize, len)
  }

  lemma OneByteStep(content: seq<byte>, chunkSize: usize, overlap: usize, start: usize)
    requires |content| <= ISIZE_MAX && EveryByteIsBoundary(content)
    requires overlap < chunkSize && start < |content|
    ensures ChunkEnd(content, [], chunkSize, 0, start) == Min(start + chunkSize, |content|)
    ensures start + chunkSize < |content| ==>
              NextStart(content, overlap, start, start + chunkSize) == start + chunkSize - overlap
  {
    NoCuts(content, chunkSize, 0, start);
    hide ChunkEnd, LeastOverlap;
  }

  lemma ClosedFormShift(len: nat, chunkSize: nat, overlap: nat, start: nat, k: nat, span: ChunkSpan)
    requires overlap < chunkSize && k > 0
    requires IsClosedForm(len, chunkSize, overlap, start + (chunkSize - overlap), k - 1, span)
    ensures IsClosedForm(len, chunkSize, overlap, start, k, span)
  {
    assert (k - 1) * (chunkSize - overlap) + (chunkSize - overlap) == k * (chunkSize - overlap);
  }

  lemma FirstClosedForm(len: nat, chunkSize: nat, overlap: nat, start: nat, span: ChunkSpan)
    requires span.start == start && span.end == Min(start + chunkSize, len)
    ensures IsClosedForm(len, chunkSize, overlap, start, 0, span)
  {
    assert 0 * (chunkSize - overlap) == 0;
  }

  lemma OneMoreStep(n: nat, step: nat, total: int)
    requires n > 0 && (n - 1) * step < total <= n * step
    ensures n * step < total + step <= (n + 1) * step
  {
    assert (n - 1) * step + step == n * step;
    assert n * step + step == (n + 1) * step;
  }

  lemma {:induction false} FixedClosedFormFrom(content: seq<byte>, chunkSize: usize, overlap: usize, start: usize)
    requires |content| <= ISIZE_MAX && EveryByteIsBoundary(content)
    requires overlap < chunkSize && start + overlap < |content|
    ensures var spans := Spans(content, [], chunkSize, overlap, 0, start);
            var step := chunkSize - overlap;
            && (forall k :: 0 <= k < |spans| ==> IsClosedForm(|content|, chunkSize, overlap, start, k, spans[k]))
            && |spans| > 0
            && (|spans| - 1) * step < |content| - overlap - start <= |spans| * step
    decreases |content| - start
  {
    hide ChunkEnd, NextStart, LeastOverlap, EveryByteIsBoundary, IsClosedForm;
    OneByteStep(content, chunkSize, overlap, start);
    FirstClosedForm(|content|, chunkSize, overlap, start,
                    ChunkSpan(start, ChunkEnd(content, [], chunkSize, 0, start)));
    var step := chunkSize - overlap;
    var spans := Spans(content, [], chunkSize, overlap, 0, start);
    if start + chunkSize < |content| {
      var next := start + step;
      FixedClosedFormFrom(content, chunkSize, overlap, next);
      var rest := Spans(content, [], chunkSize, overlap, 0, next);
      assert spans == [ChunkSpan(start, start + chunkSize)] + rest;
      forall k | 0 <= k < |spans|
        ensures IsClosedForm(|content|, chunkSize, overlap, start, k, spans[k])
      {
        if k > 0 {
          ClosedFormShift(|content|, chunkSize, overlap, start, k, rest[k - 1]);
        }
      }
      OneMoreStep(|rest|, step, |content| - overlap - next);
    } else {
      assert spans == [ChunkSpan(start, |content|)];
    }
  }

  /** When every byte is a boundary, chunk `k` is `[k*step, min(k*step + chunkSize, len)]`, and the
      number of chunks is the rounded-up quotient of `len - overlap` by `step`. */
  lemma FixedClosedForm(content: Str, chunkSize: usize, overlap: usize)
    requires EveryByteIsBoundary(content) && overlap < chunkSize < |content|
    ensures var spans := FixedPlan(content, chunkSize, overlap);
            var step := chunkSize - overlap;
            && |spans| == CeilDiv(|content| - overlap, step)
            && forall k :: 0 <= k < |spans| ==> IsClosedForm(|content|, chunkSize, overlap, 0, k, spans[k])
  {
    hide WellFormed, Spans, EveryByteIsBoundary, IsClosedForm;
    FixedClosedFormFrom(content, chunkSize, overlap, 0);
    CeilDivIs(|Spans(content, [], chunkSize, overlap, 0, 0)|, chunkSize - overlap, |content| - overlap);
  }
}
