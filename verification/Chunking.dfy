/** Overlapping chunk spans over UTF-8 text: fixed windows, and windows cut back to a breakpoint. */
module Chunking {
  import opened Prelude
  import opened Utf8
  import opened Breakpoints

  datatype ChunkSpan = ChunkSpan(start: usize, end: usize)

  // -------------------------------------------------------------------------
  // Specification
  // -------------------------------------------------------------------------

  /** Places where a chunk may end: inside the text, on scalar boundaries. */
  ghost predicate ValidCuts(content: seq<byte>, cuts: seq<Breakpoint>) {
    && |content| <= ISIZE_MAX
    && forall bp :: bp in cuts ==> 0 < bp.position < |content| && IsCharBoundary(content, bp.position)
  }

  function Target(content: seq<byte>, start: usize, chunkSize: usize): usize
    requires |content| <= ISIZE_MAX
  {
    Min(SatAdd(start, chunkSize), |content|)
  }

  /** The window end rounded down, or one scalar when rounding leaves nothing. */
  function FixedEnd(content: seq<byte>, start: usize, chunkSize: usize): (end: usize)
    requires start < |content| <= ISIZE_MAX
    ensures start < end <= |content| && IsCharBoundary(content, end)
  {
    var end := Floor(content, Target(content, start, chunkSize));
    if end > start then end else Ceil(content, start + 1)
  }

  function ChunkEnd(content: seq<byte>, cuts: seq<Breakpoint>, chunkSize: usize, window: usize, start: usize)
    : (end: usize)
    requires start < |content| && chunkSize > 0 && ValidCuts(content, cuts)
    ensures start < end <= |content| && IsCharBoundary(content, end)
  {
    var target := Target(content, start, chunkSize);
    if target >= |content| then |content|
    else
      BestIsMaximal(cuts, start, target, window);
      match BestBreakpoint(cuts, start, target, window)
      case Some(position) => position
      case None => FixedEnd(content, start, chunkSize)
  }

  /** The next chunk starts at the greatest boundary that leaves the requested overlap; when that
      makes no progress, at the first boundary after the current start. */
  ghost predicate LeastOverlap(content: seq<byte>, overlap: nat, span: ChunkSpan, next: nat) {
    && span.start < next <= span.end && IsCharBoundary(content, next)
    && (|| (&& next <= Max(span.end - overlap, 0)
            && forall b: nat :: next < b <= Max(span.end - overlap, 0) ==> !IsCharBoundary(content, b))
        || (&& (forall b: nat :: span.start < b <= Max(span.end - overlap, 0) ==> !IsCharBoundary(content, b))
            && (forall b: nat :: span.start < b < next ==> !IsCharBoundary(content, b))))
  }

  function NextStart(content: seq<byte>, overlap: usize, start: usize, end: usize): (next: usize)
    requires start < end <= |content| <= ISIZE_MAX && IsCharBoundary(content, end)
    ensures LeastOverlap(content, overlap, ChunkSpan(start, end), next)
  {
    var next := Floor(content, SatSub(end, overlap));
    if next > start then next else Ceil(content, start + 1)
  }

  function Spans(content: seq<byte>, cuts: seq<Breakpoint>, chunkSize: usize, overlap: usize,
                 window: usize, start: usize): seq<ChunkSpan>
    requires start < |content| && chunkSize > 0 && ValidCuts(content, cuts)
    decreases |content| - start
  {
    var end := ChunkEnd(content, cuts, chunkSize, window, start);
    if end == |content| then [ChunkSpan(start, end)]
    else [ChunkSpan(start, end)]
         + Spans(content, cuts, chunkSize, overlap, window, NextStart(content, overlap, start, end))
  }

  /** One chunk when the text fits or the overlap leaves no step; otherwise the walk from 0. */
  function Plan(content: seq<byte>, cuts: seq<Breakpoint>, chunkSize: usize, overlap: usize, window: usize)
    : seq<ChunkSpan>
    requires ValidCuts(content, cuts)
  {
    if content == [] || chunkSize == 0 then []
    else if chunkSize >= |content| || overlap >= chunkSize then [ChunkSpan(0, |content|)]
    else Spans(content, cuts, chunkSize, overlap, window, 0)
  }

  lemma ScannedCutsAreValid(content: Str)
    ensures ValidCuts(content, Scan(content, 0, false))
  {
    hide WellFormed, Scan;
    forall bp | bp in Scan(content, 0, false)
      ensures 0 < bp.position < |content| && IsCharBoundary(content, bp.position)
    {
      BreakpointIsBoundary(content, bp);
    }
  }

  function FixedPlan(content: Str, chunkSize: usize, overlap: usize): seq<ChunkSpan> {
    Plan(content, [], chunkSize, overlap, 0)
  }

  function StructurePlan(content: Str, chunkSize: usize, overlap: usize, window: usize): seq<ChunkSpan> {
    ScannedCutsAreValid(content);
    Plan(content, Scan(content, 0, false), chunkSize, overlap, window)
  }

  function BreakWindow(chunkSize: usize): usize { Max(chunkSize / 2, 1) }

  // -------------------------------------------------------------------------
  // The two loops
  // -------------------------------------------------------------------------

  lemma NoCuts(content: seq<byte>, chunkSize: usize, window: usize, start: usize)
    requires start < |content| <= ISIZE_MAX && chunkSize > 0
    ensures ChunkEnd(content, [], chunkSize, window, start) == FixedEnd(content, start, chunkSize)
  {
  }

  lemma {:induction false} WindowIsUnused(content: seq<byte>, chunkSize: usize, overlap: usize,
                                          v: usize, w: usize, start: usize)
    requires start < |content| <= ISIZE_MAX && chunkSize > 0
    ensures Spans(content, [], chunkSize, overlap, v, start) == Spans(content, [], chunkSize, overlap, w, start)
    decreases |content| - start
  {
    hide ChunkEnd, FixedEnd, NextStart;
    NoCuts(content, chunkSize, v, start);
    NoCuts(content, chunkSize, w, start);
    var end := FixedEnd(content, start, chunkSize);
    if end < |content| {
      WindowIsUnused(content, chunkSize, overlap, v, w, NextStart(content, overlap, start, end));
    }
  }

  /** One turn of the walk, with the chunks already collected in front. */
  lemma SpansStep(content: seq<byte>, cuts: seq<Breakpoint>, chunkSize: usize, overlap: usize,
                  window: usize, start: usize, seen: seq<ChunkSpan>)
    requires start < |content| && chunkSize > 0 && ValidCuts(content, cuts)
    ensures var end := ChunkEnd(content, cuts, chunkSize, window, start);
            seen + Spans(content, cuts, chunkSize, overlap, window, start)
            == if end == |content| then seen + [ChunkSpan(start, end)]
               else (seen + [ChunkSpan(start, end)])
                    + Spans(content, cuts, chunkSize, overlap, window, NextStart(content, overlap, start, end))
  {
    hide ChunkEnd, NextStart, IsCharBoundary;
    var end := ChunkEnd(content, cuts, chunkSize, window, start);
    if end < |content| {
      AppendAssociative(seen, [ChunkSpan(start, end)],
                        Spans(content, cuts, chunkSize, overlap, window, NextStart(content, overlap, start, end)));
    }
  }

  method FixedUtf8Chunks(content: Str, chunkSize: usize, overlap: usize) returns (chunks: seq<ChunkSpan>)
    ensures chunks == FixedPlan(content, chunkSize, overlap)
  {
    hide WellFormed, ChunkEnd, IsCharBoundary, Spans, LeastOverlap;
    if content == [] || chunkSize == 0 {
      return [];
    }

    var len: usize := |content|;
    var step := SatSub(chunkSize, overlap);
    if chunkSize >= len || step == 0 {
      return [ChunkSpan(0, len)];
    }

    chunks := [];
    var start: usize := 0;
    while start < len
      invariant start < len
      invariant chunks + Spans(content, [], chunkSize, overlap, 0, start)
             == Spans(content, [], chunkSize, overlap, 0, 0)
      decreases len - start
    {
      NoCuts(content, chunkSize, 0, start);
      SpansStep(content, [], chunkSize, overlap, 0, start, chunks);
      var desiredEnd: usize := Min(SatAdd(start, chunkSize), len);
      var end := FloorCharBoundary(content, desiredEnd);
      if end <= start {
        end := CeilCharBoundary(content, start + 1);
      }

      assert end == FixedEnd(content, start, chunkSize);
      chunks := chunks + [ChunkSpan(start, end)];
      if end >= len {
        break;
      }

      var desiredStart := SatSub(end, overlap);
      var nextStart := FloorCharBoundary(content, desiredStart);
      if nextStart <= start {
        nextStart := CeilCharBoundary(content, start + 1);
      }
      assert nextStart == NextStart(content, overlap, start, end);
      start := nextStart;
    }
  }

  method StructureChunks(content: Str, chunkSize: usize, overlap: usize, breakWindow: usize)
    returns (chunks: seq<ChunkSpan>)
    ensures chunks == StructurePlan(content, chunkSize, overlap, breakWindow)
  {
    hide WellFormed, Scan, IsCharBoundary, Spans, BestBreakpoint, FixedEnd, LeastOverlap;
    if content == [] || chunkSize == 0 {
      return [];
    }

    var len: usize := |content|;
    var step := SatSub(chunkSize, overlap);
    if chunkSize >= len || step == 0 {
      return [ChunkSpan(0, len)];
    }

    var breakpoints := ScanBreakpoints(content);
    ScannedCutsAreValid(content);
    if breakpoints == [] {
      chunks := FixedUtf8Chunks(content, chunkSize, overlap);
      WindowIsUnused(content, chunkSize, overlap, 0, breakWindow, 0);
      return;
    }

    chunks := [];
    var start: usize := 0;
    while start < len
      invariant start < len
      invariant chunks + Spans(content, breakpoints, chunkSize, overlap, breakWindow, start)
             == Spans(content, breakpoints, chunkSize, overlap, breakWindow, 0)
      decreases len - start
    {
      SpansStep(content, breakpoints, chunkSize, overlap, breakWindow, start, chunks);
      var target: usize := Min(SatAdd(start, chunkSize), len);
      var end: usize;
      if target >= len {
        end := len;
      } else {
        match BestBreakpoint(breakpoints, start, target, breakWindow)
        case Some(position) => end := position;
        case None => end := FixedEnd(content, start, chunkSize);
      }
      if end <= start {
        assert false;  // both branches above already moved past `start`
      }

      chunks := chunks + [ChunkSpan(start, end)];
      if end >= len {
        break;
      }

      var desiredStart := SatSub(end, overlap);
      var nextStart := FloorCharBoundary(content, desiredStart);
      if nextStart <= start {
        nextStart := CeilCharBoundary(content, start + 1);
      }
      start := nextStart;
    }
  }
}
