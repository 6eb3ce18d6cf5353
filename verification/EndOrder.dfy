/** Do chunk ends strictly increase? The answer depends on the configuration alone, and is exact:
    outside the tame configurations some text makes two chunks end at the same place. */
module EndOrder {
  import opened Prelude
  import opened Utf8
  import opened Lines
  import opened Breakpoints
  import opened Chunking
  import opened ChunkCoverage

  ghost predicate EndsIncrease(spans: seq<ChunkSpan>) {
    forall j, k :: 0 <= j < k < |spans| ==> spans[j].end < spans[k].end
  }

  function PlannerSpans(text: Str, chunkSize: usize, overlap: usize): seq<ChunkSpan> {
    StructurePlan(text, chunkSize, overlap, BreakWindow(chunkSize))
  }

  /** Whatever the text. */
  ghost predicate AlwaysIncrease(chunkSize: usize, overlap: usize) {
    forall text: Str :: EndsIncrease(PlannerSpans(text, chunkSize, overlap))
  }

  /** Whatever the text of one-byte scalars. */
  ghost predicate IncreaseOnBytes(chunkSize: usize, overlap: usize) {
    forall text: Str :: EveryByteIsBoundary(text) ==> EndsIncrease(PlannerSpans(text, chunkSize, overlap))
  }

  /** There is at most one chunk, or chunks are adjacent, or every text ends within the second chunk. */
  predicate IsTrivial(chunkSize: usize, overlap: usize) {
    chunkSize == 0 || overlap >= chunkSize || overlap == 0 || chunkSize + 2 > ISIZE_MAX
  }

  predicate IsTame(chunkSize: usize, overlap: usize) {
    || IsTrivial(chunkSize, overlap)
    || (if overlap == 1 then chunkSize >= 8 else chunkSize - overlap > BreakWindow(chunkSize) + 3)
  }

  predicate IsTameOnBytes(chunkSize: usize, overlap: usize) {
    IsTrivial(chunkSize, overlap) || chunkSize - overlap > BreakWindow(chunkSize)
  }

  // -------------------------------------------------------------------------
  // Tame configurations
  // -------------------------------------------------------------------------

  ghost predicate StepIncreases(content: seq<byte>, cuts: seq<Breakpoint>, chunkSize: usize, overlap: usize,
                                window: usize, start: usize)
    requires start < |content| && chunkSize > 0 && ValidCuts(content, cuts)
  {
    var end := ChunkEnd(content, cuts, chunkSize, window, start);
    end < |content| ==> end < ChunkEnd(content, cuts, chunkSize, window, NextStart(content, overlap, start, end))
  }

  lemma {:induction false} StepsIncrease(content: seq<byte>, cuts: seq<Breakpoint>, chunkSize: usize, overlap: usize,
                                         window: usize, start: usize)
    requires start < |content| && chunkSize > 0 && ValidCuts(content, cuts) && IsCharBoundary(content, start)
    requires forall s: usize :: s < |content| && IsCharBoundary(content, s) ==>
               StepIncreases(content, cuts, chunkSize, overlap, window, s)
    ensures var spans := Spans(content, cuts, chunkSize, overlap, window, start);
            && EndsIncrease(spans)
            && spans != [] && spans[0].end == ChunkEnd(content, cuts, chunkSize, window, start)
    decreases |content| - start
  {
    hide ChunkEnd, NextStart, IsCharBoundary;
    assert StepIncreases(content, cuts, chunkSize, overlap, window, start);
    var end := ChunkEnd(content, cuts, chunkSize, window, start);
    if end < |content| {
      var next := NextStart(content, overlap, start, end);
      StepsIncrease(content, cuts, chunkSize, overlap, window, next);
      var rest := Spans(content, cuts, chunkSize, overlap, window, next);
      var spans := Spans(content, cuts, chunkSize, overlap, window, start);
      assert spans == [ChunkSpan(start, end)] + rest;
      forall j, k | 0 <= j < k < |spans|
        ensures spans[j].end < spans[k].end
      {
        if k > 1 { assert rest[0].end <= rest[k - 1].end; }
      }
    }
  }

  lemma AdjacentStep(content: seq<byte>, cuts: seq<Breakpoint>, chunkSize: usize, window: usize, start: usize)
    requires start < |content| && chunkSize > 0 && ValidCuts(content, cuts)
    ensures StepIncreases(content, cuts, chunkSize, 0, window, start)
  {
    hide ChunkEnd, IsCharBoundary, LeastOverlap;
    var end := ChunkEnd(content, cuts, chunkSize, window, start);
    if end < |content| {
      FloorIs(content, end, end);
    }
  }

  lemma HugeStep(content: seq<byte>, cuts: seq<Breakpoint>, chunkSize: usize, overlap: usize, window: usize,
                 start: usize)
    requires start < |content| && ValidCuts(content, cuts) && chunkSize + 2 > ISIZE_MAX
    ensures StepIncreases(content, cuts, chunkSize, overlap, window, start)
  {
    hide NextStart, IsCharBoundary, FixedEnd, BestBreakpoint;
  }

  /** A chunk over one-byte scalars that does not reach the end is at most `window` bytes short. */
  lemma ByteEndIsNear(content: seq<byte>, cuts: seq<Breakpoint>, chunkSize: usize, window: usize, start: usize)
    requires start < |content| && chunkSize > 0 && ValidCuts(content, cuts) && EveryByteIsBoundary(content)
    ensures var end := ChunkEnd(content, cuts, chunkSize, window, start);
            end == |content| || end >= start + chunkSize - window
  {
    BestIsMaximal(cuts, start, Target(content, start, chunkSize), window);
    FloorIs(content, Target(content, start, chunkSize), Target(content, start, chunkSize));
  }

  lemma ByteStep(content: seq<byte>, cuts: seq<Breakpoint>, chunkSize: usize, overlap: usize, window: usize,
                 start: usize)
    requires start < |content| && ValidCuts(content, cuts) && EveryByteIsBoundary(content)
    requires overlap < chunkSize && chunkSize - overlap > window
    ensures StepIncreases(content, cuts, chunkSize, overlap, window, start)
  {
    var end := ChunkEnd(content, cuts, chunkSize, window, start);
    ByteEndIsNear(content, cuts, chunkSize, window, start);
    hide ChunkEnd, LeastOverlap, EveryByteIsBoundary, IsCharBoundary, NextStart;
    if end < |content| {
      NextOfBytes(content, overlap, start, end);
      ByteEndIsNear(content, cuts, chunkSize, window, end - overlap);
    }
  }

  lemma NextOfBytes(content: seq<byte>, overlap: usize, start: usize, end: usize)
    requires EveryByteIsBoundary(content) && start < end <= |content| <= ISIZE_MAX && start < end - overlap
    ensures NextStart(content, overlap, start, end) == end - overlap
  {
    FloorIs(content, end - overlap, end - overlap);
    hide LeastOverlap;
  }

  lemma WideStep(content: seq<byte>, cuts: seq<Breakpoint>, chunkSize: usize, overlap: usize, start: usize)
    requires WellFormed(content) && start < |content| && ValidCuts(content, cuts) && overlap < chunkSize
    requires chunkSize - overlap > BreakWindow(chunkSize) + 3
    ensures StepIncreases(content, cuts, chunkSize, overlap, BreakWindow(chunkSize), start)
  {
    StepProgresses(content, cuts, chunkSize, overlap, BreakWindow(chunkSize), start);
    hide WellFormed, ChunkEnd, NextStart;
  }

  /** Breakpoints come right after a line break, so the place before one is a boundary too. */
  ghost predicate FollowOneByte(content: seq<byte>, cuts: seq<Breakpoint>) {
    forall bp :: bp in cuts ==> 0 < bp.position <= |content| && IsCharBoundary(content, bp.position - 1)
  }

  lemma ScannedCutsFollowOneByte(content: Str)
    ensures FollowOneByte(content, Scan(content, 0, false))
  {
    hide WellFormed, Scan, IsFenceLine, InFence;
    forall bp | bp in Scan(content, 0, false)
      ensures 0 < bp.position <= |content| && IsCharBoundary(content, bp.position - 1)
    {
      BreakpointPlaces(content, bp);
    }
  }

  ghost predicate HasCandidate(cuts: seq<Breakpoint>, start: nat, target: nat, window: nat) {
    exists bp :: bp in cuts && IsCandidate(bp, start, target, window)
  }

  /** With overlap 1 the next start gives back one byte after a breakpoint and at most four otherwise. */
  lemma SmallOverlapStart(content: seq<byte>, cuts: seq<Breakpoint>, chunkSize: usize, start: usize)
    requires WellFormed(content) && start < |content| && ValidCuts(content, cuts) && FollowOneByte(content, cuts)
    requires chunkSize >= 8
    ensures var window := BreakWindow(chunkSize);
            var end := ChunkEnd(content, cuts, chunkSize, window, start);
            end < |content| ==>
              && start + chunkSize < |content| && end <= start + chunkSize
              && (if HasCandidate(cuts, start, start + chunkSize, window)
                  then NextStart(content, 1, start, end) >= end - 1
                  else NextStart(content, 1, start, end) >= end - 4)
  {
    hide WellFormed;
    var window := BreakWindow(chunkSize);
    var end := ChunkEnd(content, cuts, chunkSize, window, start);
    if end < |content| {
      BestIsMaximal(cuts, start, start + chunkSize, window);
      RoundingIsShort(content, end - 1);
      if HasCandidate(cuts, start, start + chunkSize, window) {
        FloorIs(content, end - 1, end - 1);
      }
      hide BestOf, IsCandidate;
    }
  }

  /** The end from a given start lies beyond every place that is near enough below its target. */
  lemma EndIsBeyond(content: seq<byte>, cuts: seq<Breakpoint>, chunkSize: usize, window: usize, start: usize,
                    place: nat)
    requires WellFormed(content) && start < |content| && ValidCuts(content, cuts) && chunkSize > 3
    requires start + chunkSize > place + 3 && place < |content|
    requires forall bp :: bp in cuts && IsCandidate(bp, start, start + chunkSize, window) ==> bp.position > place
    ensures place < ChunkEnd(content, cuts, chunkSize, window, start)
  {
    hide WellFormed, IsCharBoundary;
    if start + chunkSize < |content| {
      BestIsMaximal(cuts, start, start + chunkSize, window);
      RoundingIsShort(content, start + chunkSize);
    }
    hide BestOf, IsCandidate;
  }

  lemma CandidateCarriesBack(bp: Breakpoint, start: nat, next: nat, chunkSize: nat, window: nat, end: nat)
    requires start < next && end <= start + chunkSize && IsCandidate(bp, next, next + chunkSize, window)
    ensures bp.position <= end ==> IsCandidate(bp, start, start + chunkSize, window)
  {
  }

  lemma SmallOverlapStep(content: seq<byte>, cuts: seq<Breakpoint>, chunkSize: usize, start: usize)
    requires WellFormed(content) && start < |content| && ValidCuts(content, cuts) && FollowOneByte(content, cuts)
    requires chunkSize >= 8
    ensures StepIncreases(content, cuts, chunkSize, 1, BreakWindow(chunkSize), start)
  {
    hide WellFormed, ChunkEnd, NextStart, FollowOneByte;
    var window := BreakWindow(chunkSize);
    var end := ChunkEnd(content, cuts, chunkSize, window, start);
    if end < |content| {
      SmallOverlapStart(content, cuts, chunkSize, start);
      var next := NextStart(content, 1, start, end);
      forall bp | bp in cuts && IsCandidate(bp, next, next + chunkSize, window)
        ensures bp.position > end
      {
        CandidateCarriesBack(bp, start, next, chunkSize, window, end);
      }
      EndIsBeyond(content, cuts, chunkSize, window, next, end);
    }
  }

  lemma FloorIs(s: seq<byte>, i: nat, r: nat)
    requires r <= i <= |s| && IsCharBoundary(s, r)
    requires forall k: nat :: r < k <= i ==> !IsCharBoundary(s, k)
    ensures Floor(s, i) == r
  {
  }

  /** In tame configurations every turn of the walk ends later than the one before. */
  lemma TameStep(text: Str, chunkSize: usize, overlap: usize, start: usize)
    requires start < |text| && 0 < chunkSize && overlap < chunkSize
    requires IsTame(chunkSize, overlap) || (IsTameOnBytes(chunkSize, overlap) && EveryByteIsBoundary(text))
    requires ValidCuts(text, Scan(text, 0, false))
    ensures StepIncreases(text, Scan(text, 0, false), chunkSize, overlap, BreakWindow(chunkSize), start)
  {
    hide WellFormed, Scan, ValidCuts, StepIncreases, EveryByteIsBoundary;
    var cuts, window := Scan(text, 0, false), BreakWindow(chunkSize);
    if overlap == 0 {
      AdjacentStep(text, cuts, chunkSize, window, start);
    } else if chunkSize + 2 > ISIZE_MAX {
      HugeStep(text, cuts, chunkSize, overlap, window, start);
    } else if chunkSize - overlap > window + 3 {
      WideStep(text, cuts, chunkSize, overlap, start);
    } else if overlap == 1 && chunkSize >= 8 {
      ScannedCutsFollowOneByte(text);
      SmallOverlapStep(text, cuts, chunkSize, start);
    } else {
      ByteStep(text, cuts, chunkSize, overlap, window, start);
    }
  }

  lemma TameIncreases(text: Str, chunkSize: usize, overlap: usize)
    requires IsTame(chunkSize, overlap) || (IsTameOnBytes(chunkSize, overlap) && EveryByteIsBoundary(text))
    ensures EndsIncrease(PlannerSpans(text, chunkSize, overlap))
  {
    hide WellFormed, Scan, StepIncreases, EveryByteIsBoundary, IsTame, IsTameOnBytes, Spans;
    ScannedCutsAreValid(text);
    hide ValidCuts;
    if 0 < chunkSize < |text| && overlap < chunkSize {
      var cuts, window := Scan(text, 0, false), BreakWindow(chunkSize);
      forall start: usize | start < |text| && IsCharBoundary(text, start)
        ensures StepIncreases(text, cuts, chunkSize, overlap, window, start)
      {
        TameStep(text, chunkSize, overlap, start);
      }
      StepsIncrease(text, cuts, chunkSize, overlap, window, 0);
    }
  }

  // -------------------------------------------------------------------------
  // Plain lines
  // -------------------------------------------------------------------------

  /** A byte that starts no white space and no line mark: a lower-case letter, or part of a scalar
      outside the blocks that hold white space. */
  predicate IsPlainByte(b: byte) {
    0x61 <= b <= 0x7A || (b >= 0x80 && b != 0xC2 && b != 0xE1 && b != 0xE2 && b != 0xE3)
  }

  predicate AllPlain(s: seq<byte>) { forall k :: 0 <= k < |s| ==> IsPlainByte(s[k]) }

  lemma {:induction false} PlainHasNoDot(s: seq<byte>, i: nat)
    requires AllPlain(s) && i <= |s|
    ensures FindDotSpace(s, i) == None
    decreases |s| - i
  {
    if i + 1 < |s| {
      assert IsPlainByte(s[i]);
      PlainHasNoDot(s, i + 1);
    }
  }

  lemma PlainIsNotSpace(s: seq<byte>, i: nat, end: nat)
    requires i < end <= |s| && IsPlainByte(s[i])
    ensures WhiteSpaceAt(s, i, end) == 0
  {
  }

  lemma PlainIsTrimmed(s: seq<byte>)
    requires s != [] && AllPlain(s)
    ensures Trim(s) == s
  {
    PlainIsNotSpace(s, 0, |s|);
    PlainIsNotSpace(s, |s| - 1, |s|);
    if |s| >= 2 { PlainIsNotSpace(s, |s| - 2, |s|); }
    if |s| >= 3 { PlainIsNotSpace(s, |s| - 3, |s|); }
    hide WhiteSpaceAt, AllPlain;
    assert TrimStart(s, 0) == 0;
    assert WhiteSpaceBefore(s, 0, |s|) == 0;
  }

  lemma PlainHasNoMark(s: seq<byte>)
    requires s != [] && AllPlain(s)
    ensures HeadingScore(s) == None && !IsHorizontalRule(s) && !IsListItem(s) && !IsCodeFence(s)
  {
    PlainHasNoDot(s, 0);
    assert IsPlainByte(s[0]);
    hide AllPlain, FindDotSpace;
  }

  lemma UnmarkedLine(s: seq<byte>, from: nat, line: seq<byte>)
    requires from < |s| && IsLineStart(s, from) && line != [] && TrimmedLine(s, from) == line
    requires HeadingScore(line) == None && !IsHorizontalRule(line) && !IsListItem(line) && !IsCodeFence(line)
    ensures LineBreakpoints(s, from, false) == Kept(NextLine(s, from), 1, |s|)
    ensures !IsFenceLine(s, from)
  {
    hide TrimmedLine, HeadingScore, IsHorizontalRule, IsListItem, IsCodeFence, NextLine, Kept, IsLineStart;
    LineStep(s, from, false);
  }

  lemma TrimmedIs(s: seq<byte>, from: nat)
    requires from <= |s|
    ensures TrimmedLine(s, from) == Trim(s[from..LineEnd(s, from)])
  {
    hide Trim, LineEnd;
  }

  lemma PlainLine(s: seq<byte>, from: nat)
    requires from < |s| && IsLineStart(s, from) && from < LineEnd(s, from) && AllPlain(s[from..LineEnd(s, from)])
    ensures LineBreakpoints(s, from, false) == Kept(NextLine(s, from), 1, |s|)
    ensures !IsFenceLine(s, from)
  {
    hide *;
    var line := s[from..LineEnd(s, from)];
    TrimmedIs(s, from);
    PlainIsTrimmed(line);
    PlainHasNoMark(line);
    UnmarkedLine(s, from, line);
  }

  lemma LineEndIs(s: seq<byte>, from: nat, end: nat)
    requires from <= end <= |s| && (end < |s| ==> s[end] == NEWLINE)
    requires forall k :: from <= k < end ==> s[k] != NEWLINE
    ensures LineEnd(s, from) == end
  {
  }

  /** A text of one plain line has no breakpoint. */
  lemma OneLineScan(text: seq<byte>)
    requires text != [] && AllPlain(text)
    ensures Scan(text, 0, false) == []
  {
    LineEndIs(text, 0, |text|);
    assert text[0..|text|] == text;
    hide LineEnd, LineBreakpoints, IsFenceLine, Scan, AllPlain, NextLine;
    PlainLine(text, 0);
    ScanStep(text, 0, false);
    ScanEnd(text, false);
  }

  function TwoLines(head: seq<byte>, tail: seq<byte>): seq<byte> { head + [NEWLINE] + tail }

  /** A text of two plain lines has one breakpoint, of score 1, after the line break. */
  lemma TwoLineScan(head: seq<byte>, tail: seq<byte>)
    requires head != [] && tail != [] && AllPlain(head) && AllPlain(tail)
    ensures Scan(TwoLines(head, tail), 0, false) == [Breakpoint(|head| + 1, 1)]
  {
    var text, p := TwoLines(head, tail), |head| + 1;
    TwoLineShape(head, tail);
    assert text[0..|head|] == head && text[p..|text|] == tail;
    hide LineEnd, LineBreakpoints, IsFenceLine, Scan, AllPlain, NextLine, TwoLines;
    PlainLine(text, 0);
    PlainLine(text, p);
    ScanStep(text, 0, false);
    ScanStep(text, p, false);
    ScanEnd(text, false);
  }

  lemma TwoLineShape(head: seq<byte>, tail: seq<byte>)
    requires head != [] && tail != [] && AllPlain(head) && AllPlain(tail)
    ensures var text, p := TwoLines(head, tail), |head| + 1;
            && LineEnd(text, 0) == |head| && NextLine(text, 0) == p && IsLineStart(text, p)
            && LineEnd(text, p) == |text| && NextLine(text, p) == |text|
  {
    var text, p := TwoLines(head, tail), |head| + 1;
    forall k | 0 <= k < |text| && k != |head|
      ensures text[k] != NEWLINE
    {
      if k < |head| {
        assert IsPlainByte(head[k]);
      } else {
        assert IsPlainByte(tail[k - p]);
      }
    }
    hide LineEnd, AllPlain;
    LineEndIs(text, 0, |head|);
    LineEndIs(text, p, |text|);
  }

  // -------------------------------------------------------------------------
  // Texts that repeat an end
  // -------------------------------------------------------------------------

  ghost predicate RepeatsEnd(text: Str, chunkSize: usize, overlap: usize) {
    !EndsIncrease(PlannerSpans(text, chunkSize, overlap))
  }

  lemma RepeatOf(text: Str, cuts: seq<Breakpoint>, chunkSize: usize, overlap: usize, end: usize)
    requires 0 < overlap < chunkSize < |text| && ValidCuts(text, cuts) && Scan(text, 0, false) == cuts
    requires 1 < end < |text| && IsCharBoundary(text, end)
    requires ChunkEnd(text, cuts, chunkSize, BreakWindow(chunkSize), 0) == end
    requires NextStart(text, overlap, 0, end) == 1
    requires ChunkEnd(text, cuts, chunkSize, BreakWindow(chunkSize), 1) == end
    ensures RepeatsEnd(text, chunkSize, overlap)
  {
    hide Scan, WellFormed, ChunkEnd, NextStart, ValidCuts, IsCharBoundary;
    var window := BreakWindow(chunkSize);
    var spans := PlannerSpans(text, chunkSize, overlap);
    var rest := Spans(text, cuts, chunkSize, overlap, window, 1);
    assert spans == Spans(text, cuts, chunkSize, overlap, window, 0);
    assert spans == [ChunkSpan(0, end)] + rest && rest[0] == ChunkSpan(1, end);
    assert spans[0].end == spans[1].end;
  }

  lemma OnlyCut(text: Str, position: nat, start: usize, chunkSize: usize, window: usize)
    requires 0 < position < |text| && IsCharBoundary(text, position)
    requires start < position <= start + chunkSize < |text| && position + window >= start + chunkSize
    ensures ChunkEnd(text, [Breakpoint(position, 1)], chunkSize, window, start) == position
  {
    hide WellFormed, FixedEnd, DecayedScore;
    var cuts := [Breakpoint(position, 1)];
    assert cuts[..0] == [];
    assert BestOf([], start, start + chunkSize, window) == None;
  }

  function Letters(n: nat): seq<byte> { seq(n, _ => 0x61) }

  lemma {:induction false} AsciiIsText(s: seq<byte>)
    requires forall k :: 0 <= k < |s| ==> s[k] < 0x80
    ensures WellFormed(s)
  {
    if s != [] { AsciiIsText(s[1..]); }
  }

  /** Two plain lines around a break that both the first and the second chunk can reach. */
  lemma TwoLinesRepeat(head: seq<byte>, tail: seq<byte>, chunkSize: usize, overlap: usize)
    requires 0 < overlap < chunkSize && chunkSize + 2 <= ISIZE_MAX
    requires head != [] && tail != [] && AllPlain(head) && AllPlain(tail) && WellFormed(TwoLines(head, tail))
    requires |head| + 1 <= chunkSize && |head| + 1 + |tail| == chunkSize + 2
    requires |head| + 1 + BreakWindow(chunkSize) >= chunkSize + 1
    requires IsCharBoundary(TwoLines(head, tail), 1) && 1 <= |head| + 1 - overlap
    requires forall k: nat :: 1 < k <= |head| + 1 - overlap ==> !IsCharBoundary(TwoLines(head, tail), k)
    ensures RepeatsEnd(TwoLines(head, tail), chunkSize, overlap)
  {
    var text, p := TwoLines(head, tail), |head| + 1;
    TwoLineScan(head, tail);
    assert text[p] == tail[0] && IsPlainByte(tail[0]) by { hide WellFormed; }
    ScannedCutsAreValid(text);
    FloorIs(text, p - overlap, 1);
    hide WellFormed, Scan, ValidCuts, TwoLines, AllPlain, LeastOverlap, RepeatsEnd;
    OnlyCut(text, p, 0, chunkSize, BreakWindow(chunkSize));
    OnlyCut(text, p, 1, chunkSize, BreakWindow(chunkSize));
    hide ChunkEnd;
    RepeatOf(text, [Breakpoint(p, 1)], chunkSize, overlap, p);
  }

  lemma BytesAreBoundaries(s: seq<byte>)
    requires forall k :: 0 <= k < |s| ==> s[k] < 0x80
    ensures EveryByteIsBoundary(s)
  {
  }

  /** One-byte scalars: the window reaches back over the whole step. */
  lemma BytesRepeat(chunkSize: usize, overlap: usize)
    requires 0 < overlap < chunkSize && chunkSize + 2 <= ISIZE_MAX && chunkSize - overlap <= BreakWindow(chunkSize)
    ensures exists text: Str :: EveryByteIsBoundary(text) && RepeatsEnd(text, chunkSize, overlap)
  {
    var head, tail := Letters(overlap), Letters(chunkSize - overlap + 1);
    var text := TwoLines(head, tail);
    AsciiIsText(text);
    BytesAreBoundaries(text);
    TwoLinesRepeat(head, tail, chunkSize, overlap);
    hide *;
    var witnessed: Str := text;
    assert EveryByteIsBoundary(witnessed) && RepeatsEnd(witnessed, chunkSize, overlap);
  }

  /** A scalar of the given width. */
  function Scalar(width: nat): seq<byte>
    requires 2 <= width <= 4
  {
    if width == 2 then [0xC3, 0xA9] else if width == 3 then [0xE4, 0xB8, 0x80] else [0xF0, 0x9F, 0x98, 0x80]
  }

  lemma ScalarBytes(width: nat)
    requires 2 <= width <= 4
    ensures |Scalar(width)| == width && WellFormed(Scalar(width)) && AllPlain(Scalar(width))
    ensures !IsContinuation(Scalar(width)[0])
    ensures forall k :: 0 < k < width ==> IsContinuation(Scalar(width)[k])
  {
    assert Scalar(width)[width..] == [];
  }

  lemma PlainAppend(x: seq<byte>, y: seq<byte>)
    requires AllPlain(x) && AllPlain(y)
    ensures AllPlain(x + y)
  {
  }

  lemma LettersArePlain(n: nat)
    ensures AllPlain(Letters(n)) && WellFormed(Letters(n))
  {
    AsciiIsText(Letters(n));
  }

  /** A scalar that straddles the requested start makes the rounded start reach further back. */
  lemma StraddleRepeats(chunkSize: usize, overlap: usize)
    requires 2 <= overlap < chunkSize && chunkSize + 2 <= ISIZE_MAX
    requires BreakWindow(chunkSize) < chunkSize - overlap <= BreakWindow(chunkSize) + 3
    ensures exists text: Str :: RepeatsEnd(text, chunkSize, overlap)
  {
    var lost := chunkSize - overlap - BreakWindow(chunkSize);
    var scalar := Scalar(lost + 1);
    var head, tail := [0x61] + scalar + Letters(overlap - 2), Letters(chunkSize - overlap + 1 - lost);
    var text := TwoLines(head, tail);
    ScalarBytes(lost + 1);
    StraddleText(scalar, overlap - 2, |tail|);
    hide WellFormed, AllPlain, RepeatsEnd;
    assert head != [] && tail != [] && |head| == overlap + lost;
    assert text[1] == scalar[0];
    assert forall k :: 1 < k <= lost + 1 ==> text[k] == scalar[k - 1];
    TwoLinesRepeat(head, tail, chunkSize, overlap);
    hide *;
    var witnessed: Str := text;
    assert RepeatsEnd(witnessed, chunkSize, overlap);
  }

  lemma StraddleText(scalar: seq<byte>, middle: nat, end: nat)
    requires WellFormed(scalar) && AllPlain(scalar)
    ensures var head := [0x61] + scalar + Letters(middle);
            AllPlain(head) && AllPlain(Letters(end)) && WellFormed(TwoLines(head, Letters(end)))
  {
    var first, letters, last := [0x61], Letters(middle), Letters(end);
    LettersArePlain(middle);
    LettersArePlain(end);
    AsciiIsText(first);
    AsciiIsText([NEWLINE]);
    assert AllPlain(first);
    PlainAppend(first, scalar);
    PlainAppend(first + scalar, letters);
    WellFormedAppend(first, scalar);
    WellFormedAppend(first + scalar, letters);
    WellFormedAppend(first + scalar + letters, [NEWLINE]);
    WellFormedAppend(first + scalar + letters + [NEWLINE], last);
  }

  /** With overlap 1, a byte and two wide scalars: both chunks round down to the same place. */
  lemma TwoScalarsRepeat(chunkSize: usize)
    requires 3 <= chunkSize <= 7
    ensures exists text: Str :: RepeatsEnd(text, chunkSize, 1)
  {
    hide WellFormed, IsCharBoundary, IsContinuation, Scalar, AllPlain, RepeatsEnd, ChunkEnd, NextStart, Scan, ValidCuts;
    var width := Min(chunkSize - 1, 4);
    var scalar := Scalar(width);
    var text := [0x61] + scalar + scalar;
    ScalarBytes(width);
    TwoScalarText(scalar);
    TwoScalarBoundaries(scalar);
    TwoScalarEnds(text, width, chunkSize);
    var witnessed: Str := text;
    RepeatOf(witnessed, [], chunkSize, 1, width + 1);
  }

  lemma TwoScalarEnds(text: seq<byte>, width: nat, chunkSize: usize)
    requires 2 <= width <= 4 && |text| == 2 * width + 1 && width + 1 <= chunkSize < 2 * width
    requires forall k: nat :: k <= 2 * width ==> (IsCharBoundary(text, k) <==> k == 0 || k == 1 || k == width + 1)
    ensures ValidCuts(text, []) && IsCharBoundary(text, width + 1)
    ensures ChunkEnd(text, [], chunkSize, BreakWindow(chunkSize), 0) == width + 1
    ensures ChunkEnd(text, [], chunkSize, BreakWindow(chunkSize), 1) == width + 1
    ensures NextStart(text, 1, 0, width + 1) == 1
  {
    FloorIs(text, chunkSize, width + 1);
    FloorIs(text, chunkSize + 1, width + 1);
    FloorIs(text, width, 1);
    NoCuts(text, chunkSize, BreakWindow(chunkSize), 0);
    NoCuts(text, chunkSize, BreakWindow(chunkSize), 1);
    hide ChunkEnd, IsCharBoundary, LeastOverlap;
  }

  lemma TwoScalarBoundaries(scalar: seq<byte>)
    requires 2 <= |scalar| <= 4 && !IsContinuation(scalar[0])
    requires forall k :: 0 < k < |scalar| ==> IsContinuation(scalar[k])
    ensures var text, width := [0x61] + scalar + scalar, |scalar|;
            forall k: nat :: k <= 2 * width ==> (IsCharBoundary(text, k) <==> k == 0 || k == 1 || k == width + 1)
  {
    var text, width := [0x61] + scalar + scalar, |scalar|;
    forall k: nat | 0 < k <= 2 * width
      ensures IsCharBoundary(text, k) <==> k == 1 || k == width + 1
    {
      assert text[k] == if k <= width then scalar[k - 1] else scalar[k - 1 - width];
    }
  }

  lemma TwoScalarText(scalar: seq<byte>)
    requires WellFormed(scalar) && AllPlain(scalar)
    ensures WellFormed([0x61] + scalar + scalar) && Scan([0x61] + scalar + scalar, 0, false) == []
  {
    var first := [0x61];
    AsciiIsText(first);
    assert AllPlain(first);
    PlainAppend(first, scalar);
    PlainAppend(first + scalar, scalar);
    WellFormedAppend(first, scalar);
    WellFormedAppend(first + scalar, scalar);
    OneLineScan(first + scalar + scalar);
  }

  // -------------------------------------------------------------------------
  // Main results
  // -------------------------------------------------------------------------

  /** Over all texts: chunk ends strictly increase exactly in the tame configurations. */
  lemma EndsIncreaseIff(chunkSize: usize, overlap: usize)
    ensures AlwaysIncrease(chunkSize, overlap) <==> IsTame(chunkSize, overlap)
  {
    hide PlannerSpans, EndsIncrease, WellFormed, EveryByteIsBoundary;
    if IsTame(chunkSize, overlap) {
      forall text: Str
        ensures EndsIncrease(PlannerSpans(text, chunkSize, overlap))
      {
        TameIncreases(text, chunkSize, overlap);
      }
    } else if chunkSize - overlap <= BreakWindow(chunkSize) {
      BytesRepeat(chunkSize, overlap);
    } else if overlap == 1 {
      TwoScalarsRepeat(chunkSize);
    } else {
      StraddleRepeats(chunkSize, overlap);
    }
  }

  /** Over all texts of one-byte scalars the window alone decides. */
  lemma EndsIncreaseOnBytesIff(chunkSize: usize, overlap: usize)
    ensures IncreaseOnBytes(chunkSize, overlap) <==> IsTameOnBytes(chunkSize, overlap)
  {
    hide PlannerSpans, EndsIncrease, WellFormed, EveryByteIsBoundary;
    if IsTameOnBytes(chunkSize, overlap) {
      forall text: Str | EveryByteIsBoundary(text)
        ensures EndsIncrease(PlannerSpans(text, chunkSize, overlap))
      {
        TameIncreases(text, chunkSize, overlap);
      }
    } else {
      BytesRepeat(chunkSize, overlap);
    }
  }
}
