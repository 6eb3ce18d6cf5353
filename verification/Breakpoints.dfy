/** The breakpoint scanner, with its fence state, and the choice of one breakpoint. */
module Breakpoints {
  import opened Prelude
  import opened Utf8
  import opened Lines

  datatype Breakpoint = Breakpoint(position: nat, score: nat)

  // -------------------------------------------------------------------------
  // Reference: what one line contributes
  // -------------------------------------------------------------------------

  /** A breakpoint at either end of the text is dropped. */
  function Kept(position: nat, score: nat, contentLen: nat): seq<Breakpoint> {
    if position == 0 || position >= contentLen then [] else [Breakpoint(position, score)]
  }

  function MarkedLine(s: seq<byte>, from: nat): seq<Breakpoint>
    requires from < |s|
  {
    var trimmed := TrimmedLine(s, from);
    if HeadingScore(trimmed).Some? then Kept(from, HeadingScore(trimmed).value, |s|)
    else if IsHorizontalRule(trimmed) then Kept(from, 60, |s|)
    else if trimmed == [] then Kept(NextLine(s, from), 20, |s|)
    else if IsListItem(trimmed) then Kept(from, 5, |s|)
    else []
  }

  /** Breakpoints owed to the line at `from`, when `inFence` says whether a fence is open there. */
  function LineBreakpoints(s: seq<byte>, from: nat, inFence: bool): seq<Breakpoint>
    requires from < |s| && IsLineStart(s, from)
  {
    if IsFenceLine(s, from) then Kept(from, 80, |s|)
    else if inFence then []
    else MarkedLine(s, from) + Kept(NextLine(s, from), 1, |s|)
  }

  /** Fence lines that start in `[from, p)`. */
  function FencesBetween(s: seq<byte>, from: nat, p: nat): nat
    decreases |s| - from
  {
    if from >= p || from >= |s| then 0
    else (if IsFenceLine(s, from) then 1 else 0) + FencesBetween(s, NextLine(s, from), p)
  }

  /** A fence is open at `p` when an odd number of fence lines came before it. */
  predicate InFence(s: seq<byte>, p: nat) { FencesBetween(s, 0, p) % 2 == 1 }

  /** Reference definition: some line, judged on its own, owes this breakpoint. */
  ghost predicate IsOwed(s: seq<byte>, bp: Breakpoint) {
    exists q: nat :: q < |s| && IsLineStart(s, q) && bp in LineBreakpoints(s, q, InFence(s, q))
  }

  // -------------------------------------------------------------------------
  // The scan
  // -------------------------------------------------------------------------

  function Scan(s: seq<byte>, from: nat, inFence: bool): seq<Breakpoint>
    requires from <= |s| && (from < |s| ==> IsLineStart(s, from))
    decreases |s| - from
  {
    if from == |s| then []
    else
      LineBreakpoints(s, from, inFence)
      + Scan(s, NextLine(s, from), if IsFenceLine(s, from) then !inFence else inFence)
  }

  method PushBreakpoint(breakpoints: seq<Breakpoint>, position: nat, score: nat, contentLen: nat)
    returns (r: seq<Breakpoint>)
    ensures r == breakpoints + Kept(position, score, contentLen)
  {
    if position == 0 || position >= contentLen {
      return breakpoints;
    }
    r := breakpoints + [Breakpoint(position, score)];
  }

  lemma ScanStep(s: seq<byte>, from: nat, inFence: bool)
    requires from < |s| && IsLineStart(s, from)
    ensures Scan(s, from, inFence)
         == LineBreakpoints(s, from, inFence)
            + Scan(s, NextLine(s, from), if IsFenceLine(s, from) then !inFence else inFence)
  {
    hide LineBreakpoints, IsFenceLine, NextLine;
  }

  lemma ScanEnd(s: seq<byte>, inFence: bool)
    ensures Scan(s, |s|, inFence) == []
  {
  }

  lemma LineStep(s: seq<byte>, from: nat, inFence: bool)
    requires from < |s| && IsLineStart(s, from)
    ensures LineBreakpoints(s, from, inFence)
         == if IsCodeFence(TrimmedLine(s, from)) then Kept(from, 80, |s|)
            else if inFence then []
            else MarkedLine(s, from) + Kept(NextLine(s, from), 1, |s|)
    ensures IsFenceLine(s, from) <==> IsCodeFence(TrimmedLine(s, from))
  {
    hide TrimmedLine, MarkedLine, IsCodeFence;
  }

  method ScanBreakpoints(content: Str) returns (breakpoints: seq<Breakpoint>)
    ensures breakpoints == Scan(content, 0, false)
  {
    hide WellFormed, Scan, LineBreakpoints, IsFenceLine, LineEnd, Trim, HeadingScore, IsCodeFence, IsHorizontalRule,
      IsListItem;
    breakpoints := [];
    var lineStart: usize := 0;
    var inFence := false;
    while lineStart < |content|
      invariant lineStart <= |content|
      invariant lineStart < |content| ==> IsLineStart(content, lineStart)
      invariant breakpoints + Scan(content, lineStart, inFence) == Scan(content, 0, false)
    {
      LineStartIsBoundary(content, lineStart);
      ScanStep(content, lineStart, inFence);
      LineStep(content, lineStart, inFence);
      var lineEnd := LineEnd(content, lineStart);
      var nextLineStart: usize := if lineEnd < |content| then lineEnd + 1 else |content|;
      var trimmed := Trim(content[lineStart..lineEnd]);
      ghost var seen, before := breakpoints, lineStart;

      if IsCodeFence(trimmed) {
        breakpoints := PushBreakpoint(breakpoints, lineStart, 80, |content|);
        inFence := !inFence;
        lineStart := nextLineStart;
        AppendAssociative(seen, Kept(before, 80, |content|), Scan(content, lineStart, inFence));
        continue;
      }

      if !inFence {
        if HeadingScore(trimmed).Some? {
          breakpoints := PushBreakpoint(breakpoints, lineStart, HeadingScore(trimmed).value, |content|);
        } else if IsHorizontalRule(trimmed) {
          breakpoints := PushBreakpoint(breakpoints, lineStart, 60, |content|);
        } else if trimmed == [] {
          breakpoints := PushBreakpoint(breakpoints, nextLineStart, 20, |content|);
        } else if IsListItem(trimmed) {
          breakpoints := PushBreakpoint(breakpoints, lineStart, 5, |content|);
        }
        assert breakpoints == seen + MarkedLine(content, lineStart);
        breakpoints := PushBreakpoint(breakpoints, nextLineStart, 1, |content|);
        AppendAssociative(seen, MarkedLine(content, lineStart), Kept(nextLineStart, 1, |content|));
      }

      lineStart := nextLineStart;
      AppendAssociative(seen, LineBreakpoints(content, before, inFence), Scan(content, lineStart, inFence));
    }
    ScanEnd(content, inFence);
  }

  lemma {:induction false} FencesThroughLine(s: seq<byte>, from: nat, q: nat)
    requires from <= q < |s| && IsLineStart(s, q)
    ensures FencesBetween(s, from, NextLine(s, q))
         == FencesBetween(s, from, q) + if IsFenceLine(s, q) then 1 else 0
    decreases |s| - from
  {
    hide TrimmedLine;
    if from < q {
      NoLineStartInside(s, from, q);
      FencesThroughLine(s, NextLine(s, from), q);
    } else {
      assert FencesBetween(s, NextLine(s, q), NextLine(s, q)) == 0;
    }
  }

  lemma {:induction false} FencesSplit(s: seq<byte>, from: nat, a: nat, p: nat)
    requires from <= a <= p <= |s| && a < |s| && IsLineStart(s, a)
    ensures FencesBetween(s, from, p) == FencesBetween(s, from, a) + FencesBetween(s, a, p)
    decreases |s| - from
  {
    hide TrimmedLine;
    if from < a {
      NoLineStartInside(s, from, a);
      FencesSplit(s, NextLine(s, from), a, p);
    }
  }

  /** The fence flag carried by the scan is the parity of the fence lines behind it, so scanning
      and judging every line on its own give the same breakpoints. */
  lemma {:induction false} ScanFrom(s: seq<byte>, from: nat, inFence: bool, bp: Breakpoint)
    requires from <= |s| && (from < |s| ==> IsLineStart(s, from))
    requires from < |s| ==> inFence == InFence(s, from)
    ensures bp in Scan(s, from, inFence) <==>
            exists q: nat :: from <= q < |s| && IsLineStart(s, q) && bp in LineBreakpoints(s, q, InFence(s, q))
    decreases |s| - from
  {
    hide Scan, LineBreakpoints, IsFenceLine, NextLine;
    if from < |s| {
      var next := NextLine(s, from);
      FencesThroughLine(s, 0, from);
      ScanStep(s, from, inFence);
      ScanFrom(s, next, if IsFenceLine(s, from) then !inFence else inFence, bp);
      forall q: nat | from < q < |s| && IsLineStart(s, q)
        ensures next <= q
      {
        NoLineStartInside(s, from, q);
      }
    } else {
      ScanEnd(s, inFence);
    }
  }

  lemma ScanMeetsReference(s: seq<byte>, bp: Breakpoint)
    ensures bp in Scan(s, 0, false) <==> IsOwed(s, bp)
  {
    assert FencesBetween(s, 0, 0) == 0;
    ScanFrom(s, 0, false, bp);
  }

  lemma LineBreakpointPlaces(s: seq<byte>, q: nat, inFence: bool, bp: Breakpoint)
    requires q < |s| && IsLineStart(s, q) && bp in LineBreakpoints(s, q, inFence)
    ensures 0 < bp.position < |s| && IsLineStart(s, bp.position)
    ensures 1 <= bp.score <= 100
    ensures bp.position == q || (bp.position == NextLine(s, q) && !IsFenceLine(s, q))
    ensures IsFenceLine(s, q) || !inFence
  {
    hide TrimmedLine;
  }

  /** Each breakpoint is at a line start inside the text, and no fence is open there unless the
      line itself is a fence line. */
  lemma BreakpointPlaces(s: seq<byte>, bp: Breakpoint)
    requires bp in Scan(s, 0, false)
    ensures 0 < bp.position < |s| && IsLineStart(s, bp.position)
    ensures IsFenceLine(s, bp.position) || !InFence(s, bp.position)
    ensures 1 <= bp.score <= 100
  {
    ScanMeetsReference(s, bp);
    hide LineBreakpoints, Scan, IsFenceLine;
    var q: nat :| q < |s| && IsLineStart(s, q) && bp in LineBreakpoints(s, q, InFence(s, q));
    LineBreakpointPlaces(s, q, InFence(s, q), bp);
    FencesThroughLine(s, 0, q);
  }

  lemma BreakpointIsBoundary(s: seq<byte>, bp: Breakpoint)
    requires WellFormed(s) && bp in Scan(s, 0, false)
    ensures 0 < bp.position < |s| && IsCharBoundary(s, bp.position)
  {
    hide Scan;
    BreakpointPlaces(s, bp);
    LineStartIsBoundary(s, bp.position);
  }

  lemma {:induction false} NoFenceLines(s: seq<byte>, from: nat, p: nat)
    requires from <= |s|
    requires forall q: nat :: from <= q < p ==> !IsFenceLine(s, q)
    ensures FencesBetween(s, from, p) == 0
    decreases |s| - from
  {
    hide TrimmedLine;
    if from < p && from < |s| { NoFenceLines(s, NextLine(s, from), p); }
  }

  /** No breakpoint lies strictly between an opening fence line and the line that closes it. */
  lemma NoBreakpointInsideFence(s: seq<byte>, opening: nat, closing: nat, bp: Breakpoint)
    requires bp in Scan(s, 0, false)
    requires IsFenceLine(s, opening) && !InFence(s, opening)
    requires closing <= |s| && forall q: nat :: opening < q < closing ==> !IsFenceLine(s, q)
    ensures !(opening < bp.position < closing)
  {
    hide Scan;
    BreakpointPlaces(s, bp);
    if opening < bp.position < closing {
      OneFenceOpen(s, opening, bp.position);
    }
  }

  lemma OneFenceOpen(s: seq<byte>, opening: nat, p: nat)
    requires IsFenceLine(s, opening) && !InFence(s, opening)
    requires opening < p <= |s| && IsLineStart(s, p)
    requires forall q: nat :: opening < q < p ==> !IsFenceLine(s, q)
    ensures InFence(s, p)
  {
    hide TrimmedLine;
    NoLineStartInside(s, opening, p);
    FencesSplit(s, 0, opening, p);
    NoFenceLines(s, NextLine(s, opening), p);
  }

  lemma LineIsSorted(s: seq<byte>, q: nat, inFence: bool)
    requires q < |s| && IsLineStart(s, q)
    ensures forall k :: 0 <= k < |LineBreakpoints(s, q, inFence)| ==>
              q <= LineBreakpoints(s, q, inFence)[k].position <= NextLine(s, q)
    ensures forall j, k :: 0 <= j < k < |LineBreakpoints(s, q, inFence)| ==>
              LineBreakpoints(s, q, inFence)[j].position <= LineBreakpoints(s, q, inFence)[k].position
  {
    hide TrimmedLine;
  }

  lemma {:induction false} ScanStaysAhead(s: seq<byte>, from: nat, inFence: bool, k: nat)
    requires from <= |s| && (from < |s| ==> IsLineStart(s, from))
    requires k < |Scan(s, from, inFence)|
    ensures Scan(s, from, inFence)[k].position >= from
    decreases |s| - from
  {
    hide Scan, LineBreakpoints, IsFenceLine, NextLine;
    if from == |s| {
      ScanEnd(s, inFence);
    } else {
      ScanStep(s, from, inFence);
      LineIsSorted(s, from, inFence);
      var here := |LineBreakpoints(s, from, inFence)|;
      if k >= here {
        ScanStaysAhead(s, NextLine(s, from), if IsFenceLine(s, from) then !inFence else inFence, k - here);
      }
    }
  }

  /** Positions never go backwards. */
  lemma {:induction false} ScanIsSorted(s: seq<byte>, from: nat, inFence: bool, j: nat, k: nat)
    requires from <= |s| && (from < |s| ==> IsLineStart(s, from))
    requires j < k < |Scan(s, from, inFence)|
    ensures Scan(s, from, inFence)[j].position <= Scan(s, from, inFence)[k].position
    decreases |s| - from
  {
    hide Scan, LineBreakpoints, IsFenceLine, NextLine;
    if from == |s| {
      ScanEnd(s, inFence);
    } else {
      ScanStep(s, from, inFence);
      LineIsSorted(s, from, inFence);
      var here := |LineBreakpoints(s, from, inFence)|;
      var next := NextLine(s, from);
      var flag := if IsFenceLine(s, from) then !inFence else inFence;
      if j >= here {
        ScanIsSorted(s, next, flag, j - here, k - here);
      } else if k >= here {
        ScanStaysAhead(s, next, flag, k - here);
      }
    }
  }

  // -------------------------------------------------------------------------
  // Choosing one breakpoint
  // -------------------------------------------------------------------------

  const DISTANCE_DECAY: real := 0.7

  function Distance(position: nat, target: nat, window: nat): real {
    (Max(target - position, 0) as real) / (Max(window, 1) as real)
  }

  function Decay(score: real, distance: real): real {
    assert distance * distance >= 0.0;
    score / (1.0 + DISTANCE_DECAY * (distance * distance))
  }

  function DecayedScore(bp: Breakpoint, target: nat, window: nat): real {
    Decay(bp.score as real, Distance(bp.position, target, window))
  }

  predicate IsCandidate(bp: Breakpoint, start: nat, target: nat, window: nat) {
    bp.position > start && bp.position <= target && bp.position >= Max(target - window, 0)
  }

  /** `Iterator::max_by` on the candidates: of several equal maxima the last one wins. */
  function BestOf(bps: seq<Breakpoint>, start: nat, target: nat, window: nat): Option<Breakpoint> {
    if bps == [] then None
    else
      var last := bps[|bps| - 1];
      var best := BestOf(bps[..|bps| - 1], start, target, window);
      if !IsCandidate(last, start, target, window) then best
      else if best.Some?
              && DecayedScore(best.value, target, window) > DecayedScore(last, target, window) then best
      else Some(last)
  }

  function BestBreakpoint(bps: seq<Breakpoint>, start: nat, target: nat, window: nat): Option<nat> {
    match BestOf(bps, start, target, window)
    case None => None
    case Some(bp) => Some(bp.position)
  }

  /** The choice is a candidate that no candidate beats; it fails only when there is none. */
  lemma {:induction false} BestIsMaximal(bps: seq<Breakpoint>, start: nat, target: nat, window: nat)
    ensures var best := BestOf(bps, start, target, window);
            match best
            case None => forall bp :: bp in bps ==> !IsCandidate(bp, start, target, window)
            case Some(b) =>
              && b in bps && IsCandidate(b, start, target, window)
              && forall bp :: bp in bps && IsCandidate(bp, start, target, window) ==>
                   DecayedScore(bp, target, window) <= DecayedScore(b, target, window)
  {
    if bps != [] {
      var init := bps[..|bps| - 1];
      BestIsMaximal(init, start, target, window);
      assert bps == init + [bps[|bps| - 1]];
    }
  }

  ghost predicate IsLastMaximum(bps: seq<Breakpoint>, start: nat, target: nat, window: nat, k: int) {
    && 0 <= k < |bps| && IsCandidate(bps[k], start, target, window)
    && (forall j :: 0 <= j < k && IsCandidate(bps[j], start, target, window) ==>
          DecayedScore(bps[j], target, window) <= DecayedScore(bps[k], target, window))
    && forall j :: k < j < |bps| && IsCandidate(bps[j], start, target, window) ==>
         DecayedScore(bps[j], target, window) < DecayedScore(bps[k], target, window)
  }

  lemma LaterCandidateIsWorse(bps: seq<Breakpoint>, start: nat, target: nat, window: nat, k: int)
    requires bps != [] && IsLastMaximum(bps[..|bps| - 1], start, target, window, k)
    requires var last := bps[|bps| - 1];
             IsCandidate(last, start, target, window) ==>
               DecayedScore(last, target, window) < DecayedScore(bps[..|bps| - 1][k], target, window)
    ensures IsLastMaximum(bps, start, target, window, k) && bps[k] == bps[..|bps| - 1][k]
  {
    hide DecayedScore, IsCandidate;
    assert forall j :: 0 <= j < |bps| - 1 ==> bps[..|bps| - 1][j] == bps[j];
  }

  lemma LastCandidateIsBest(bps: seq<Breakpoint>, start: nat, target: nat, window: nat)
    requires bps != [] && IsCandidate(bps[|bps| - 1], start, target, window)
    requires forall bp :: bp in bps[..|bps| - 1] && IsCandidate(bp, start, target, window) ==>
               DecayedScore(bp, target, window) <= DecayedScore(bps[|bps| - 1], target, window)
    ensures IsLastMaximum(bps, start, target, window, |bps| - 1)
  {
    hide DecayedScore, IsCandidate;
    assert forall j :: 0 <= j < |bps| - 1 ==> bps[j] in bps[..|bps| - 1];
  }

  /** Among equally good candidates the last one is chosen. */
  lemma {:induction false} BestIsLastMaximum(bps: seq<Breakpoint>, start: nat, target: nat, window: nat)
    requires BestOf(bps, start, target, window).Some?
    ensures exists k :: IsLastMaximum(bps, start, target, window, k)
                        && bps[k] == BestOf(bps, start, target, window).value
  {
    var init, last := bps[..|bps| - 1], bps[|bps| - 1];
    var best := BestOf(init, start, target, window);
    BestIsMaximal(init, start, target, window);
    hide DecayedScore, IsLastMaximum, IsCandidate;
    if IsCandidate(last, start, target, window)
       && !(best.Some? && DecayedScore(best.value, target, window) > DecayedScore(last, target, window)) {
      LastCandidateIsBest(bps, start, target, window);
      assert IsLastMaximum(bps, start, target, window, |bps| - 1);
    } else {
      BestIsLastMaximum(init, start, target, window);
      var k :| IsLastMaximum(init, start, target, window, k) && init[k] == best.value;
      LaterCandidateIsWorse(bps, start, target, window, k);
    }
  }

  lemma Product(a: real, b: real)
    requires a >= 0.0 && b >= 0.0
    ensures a * b >= 0.0
  {
  }

  lemma StrictProduct(a: real, b: real)
    requires a > 0.0 && b > 0.0
    ensures a * b > 0.0
  {
  }

  lemma StrictSquares(a: real, b: real)
    requires 0.0 <= a < b
    ensures a * a < b * b
  {
    var d := b - a;
    StrictProduct(d, b + a);
    assert b == a + d;
    assert b * b == (a + d) * b;
    assert (a + d) * b == a * b + d * b;
    assert a * b == a * (a + d);
    assert a * (a + d) == a * a + a * d;
    assert d * (b + a) == d * b + d * a;
  }

  lemma Squares(a: real, b: real)
    requires 0.0 <= a <= b
    ensures a * a <= b * b
  {
    if a < b { StrictSquares(a, b); }
  }

  /** A larger numerator over a smaller divisor. */
  lemma Quotients(m: real, n: real, a: real, b: real)
    requires 0.0 < m <= n && 0.0 < a < b
    ensures m / b < n / a
  {
    assert m * a < m * b <= n * b;
    assert (m / b) * b == m && (n / a) * a == n;
    assert ((m / b) * b) * a < ((n / a) * a) * b;
    assert (m / b) * (a * b) < (n / a) * (a * b);
  }

  lemma DistanceOrder(near: nat, far: nat, target: nat, window: nat)
    requires far < near <= target
    ensures 0.0 <= Distance(near, target, window) < Distance(far, target, window)
  {
    var w := Max(window, 1) as real;
    assert Distance(far, target, window) - Distance(near, target, window) == ((near - far) as real) / w;
  }

  lemma DecayOrder(low: real, high: real, near: real, far: real)
    requires 0.0 < low <= high && 0.0 <= near < far
    ensures Decay(low, far) < Decay(high, near)
  {
    Squares(0.0, near);
    StrictSquares(near, far);
    Quotients(low, high, 1.0 + DISTANCE_DECAY * (near * near), 1.0 + DISTANCE_DECAY * (far * far));
  }

  /** Nearer the target and at least as high a score means a strictly higher decayed score. */
  lemma NearerIsBetter(near: Breakpoint, far: Breakpoint, target: nat, window: nat)
    requires far.position < near.position <= target
    requires 0 < far.score <= near.score
    ensures DecayedScore(far, target, window) < DecayedScore(near, target, window)
  {
    hide Decay, Distance;
    DistanceOrder(near.position, far.position, target, window);
    DecayOrder(far.score as real, near.score as real,
               Distance(near.position, target, window), Distance(far.position, target, window));
  }

  lemma WindowDistance(position: nat, target: nat, window: nat)
    requires position <= target <= position + window
    ensures 0.0 <= Distance(position, target, window) <= 1.0
  {
    var w := Max(window, 1) as real;
    assert ((target - position) as real) <= w;
  }

  lemma DivisorRange(n: real, q: real)
    requires n >= 0.0 && 1.0 <= q <= 1.7
    ensures n / q <= n <= 1.7 * (n / q)
  {
    var t := n / q;
    assert t * q == n && t >= 0.0;
    Product(t, q - 1.0);
    Product(t, 1.7 - q);
    assert t * (q - 1.0) == n - t && t * (1.7 - q) == 1.7 * t - n;
  }

  /** Inside the window the decay costs at most the factor 1.7. */
  lemma DecayIsBounded(bp: Breakpoint, start: nat, target: nat, window: nat)
    requires IsCandidate(bp, start, target, window)
    ensures bp.score as real <= 1.7 * DecayedScore(bp, target, window)
    ensures DecayedScore(bp, target, window) <= bp.score as real
  {
    var d := Distance(bp.position, target, window);
    WindowDistance(bp.position, target, window);
    Squares(d, 1.0);
    Squares(0.0, d);
    DivisorRange(bp.score as real, 1.0 + DISTANCE_DECAY * (d * d));
  }

  /** The choice lies in `(start, target]` and in the window. No candidate nearer the target has at
      least its score, and no candidate has more than 1.7 times its score. */
  lemma ChoiceIsSound(bps: seq<Breakpoint>, start: nat, target: nat, window: nat, rival: Breakpoint)
    requires forall bp :: bp in bps ==> bp.score > 0
    requires rival in bps && IsCandidate(rival, start, target, window)
    ensures var best := BestOf(bps, start, target, window);
            && best.Some?
            && start < best.value.position <= target <= best.value.position + window
            && !(rival.position > best.value.position && rival.score >= best.value.score)
            && !(rival.score as real > 1.7 * (best.value.score as real))
  {
    BestIsMaximal(bps, start, target, window);
    var best := BestOf(bps, start, target, window).value;
    if rival.position > best.position && rival.score >= best.score {
      NearerIsBetter(rival, best, target, window);
    }
    DecayIsBounded(rival, start, target, window);
    DecayIsBounded(best, start, target, window);
  }
}
