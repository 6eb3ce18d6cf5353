/** The choice of a breakpoint in whole numbers, and where a chunk ends. */
module BreakChoice {
  import opened Prelude
  import opened Utf8
  import opened Lines
  import opened Breakpoints
  import opened Chunking

  // -------------------------------------------------------------------------
  // Decayed scores compared without division
  // -------------------------------------------------------------------------

  /** Ten times the squared window plus seven times the squared distance: the decay over a common
      denominator. */
  function Cost(position: nat, target: nat, window: nat): nat {
    var w, d := Max(window, 1), Max(target - position, 0);
    10 * (w * w) + 7 * (d * d)
  }

  /** `y` scores at least as much as `x` after decay. */
  predicate IsAtLeast(y: Breakpoint, x: Breakpoint, target: nat, window: nat) {
    x.score * Cost(y.position, target, window) <= y.score * Cost(x.position, target, window)
  }

  lemma SquareOfQuotient(d: real, w: real)
    requires w > 0.0
    ensures (d / w) * (d / w) * (w * w) == d * d
  {
    var q := d / w;
    assert q * w == d;
    assert q * q * (w * w) == (q * w) * (q * w);
  }

  lemma CommonDenominator(score: real, d: real, w: real)
    requires w > 0.0 && d >= 0.0
    ensures var cost := 10.0 * (w * w) + 7.0 * (d * d);
            cost > 0.0 && Decay(score, d / w) * cost == score * (10.0 * (w * w))
  {
    var q := (d / w) * (d / w);
    SquareOfQuotient(d, w);
    StrictProduct(w, w);
    Product(d, d);
    assert q >= 0.0;
    var divisor := 1.0 + DISTANCE_DECAY * q;
    assert divisor * (10.0 * (w * w)) == 10.0 * (w * w) + 7.0 * (q * (w * w));
    assert Decay(score, d / w) * divisor == score;
    assert Decay(score, d / w) * (divisor * (10.0 * (w * w))) == (Decay(score, d / w) * divisor) * (10.0 * (w * w));
  }

  lemma CompareProducts(x: real, y: real, a: real, b: real, p: real, q: real, w: real)
    requires a > 0.0 && b > 0.0 && w > 0.0
    requires x * a == p * w && y * b == q * w
    ensures x <= y <==> p * b <= q * a
  {
    StrictProduct(a, b);
    assert x * (a * b) == (x * a) * b && y * (a * b) == (y * b) * a;
    assert x * (a * b) == (p * b) * w && y * (a * b) == (q * a) * w;
    OrderByFactor(x, y, a * b);
    OrderByFactor(p * b, q * a, w);
  }

  lemma OrderByFactor(x: real, y: real, f: real)
    requires f > 0.0
    ensures x <= y <==> x * f <= y * f
  {
    if x < y { StrictProduct(y - x, f); assert (y - x) * f == y * f - x * f; }
    if y < x { StrictProduct(x - y, f); assert (x - y) * f == x * f - y * f; }
  }

  lemma RealProduct(x: nat, y: nat)
    ensures (x * y) as real == x as real * y as real
  {
  }

  lemma CostIsReal(position: nat, target: nat, window: nat)
    ensures var w, d := Max(window, 1) as real, Max(target - position, 0) as real;
            Cost(position, target, window) as real == 10.0 * (w * w) + 7.0 * (d * d)
  {
    RealProduct(Max(window, 1), Max(window, 1));
    RealProduct(Max(target - position, 0), Max(target - position, 0));
  }

  lemma ScoreTimesCost(bp: Breakpoint, target: nat, window: nat)
    ensures var w := Max(window, 1) as real;
            && Cost(bp.position, target, window) > 0 && w * w > 0.0
            && DecayedScore(bp, target, window) * (Cost(bp.position, target, window) as real)
               == bp.score as real * (10.0 * (w * w))
  {
    var w, d := Max(window, 1) as real, Max(target - bp.position, 0) as real;
    StrictProduct(w, w);
    CostIsReal(bp.position, target, window);
    CommonDenominator(bp.score as real, d, w);
    hide Decay, Cost;
  }

  /** Decayed scores compare as products of whole numbers. */
  lemma DecayedOrderIff(x: Breakpoint, y: Breakpoint, target: nat, window: nat)
    ensures DecayedScore(x, target, window) <= DecayedScore(y, target, window) <==> IsAtLeast(y, x, target, window)
  {
    hide DecayedScore, Cost;
    var w := Max(window, 1) as real;
    var a, b := Cost(x.position, target, window), Cost(y.position, target, window);
    ScoreTimesCost(x, target, window);
    ScoreTimesCost(y, target, window);
    RealProduct(x.score, b);
    RealProduct(y.score, a);
    CompareProducts(DecayedScore(x, target, window), DecayedScore(y, target, window), a as real, b as real,
                    x.score as real, y.score as real, 10.0 * (w * w));
  }

  // -------------------------------------------------------------------------
  // Where a chunk ends
  // -------------------------------------------------------------------------

  /** A breakpoint of the text that is later than `start` and at most `window` before `target`. */
  predicate IsInReach(s: seq<byte>, bp: Breakpoint, start: nat, target: nat, window: nat) {
    bp in Scan(s, 0, false) && start < bp.position <= target && target <= bp.position + window
  }

  /** A breakpoint in reach at `end` scores at least as much as every one in reach, and more than every
      later one. */
  ghost predicate IsBestEnd(s: seq<byte>, start: nat, target: nat, window: nat, end: nat) {
    exists bp :: IsInReach(s, bp, start, target, window) && bp.position == end
                 && IsUnbeaten(s, start, target, window, bp)
  }

  ghost predicate IsUnbeaten(s: seq<byte>, start: nat, target: nat, window: nat, bp: Breakpoint) {
    forall rival :: IsInReach(s, rival, start, target, window) ==>
      && IsAtLeast(bp, rival, target, window)
      && (rival.position > bp.position ==> !IsAtLeast(rival, bp, target, window))
  }

  /** The greatest boundary up to `target`, or without one after `start` the first boundary after it. */
  ghost predicate IsRoundedEnd(s: seq<byte>, start: nat, target: nat, end: nat) {
    && start < end <= |s| && IsCharBoundary(s, end)
    && if exists b: nat :: start < b <= target && IsCharBoundary(s, b)
       then end <= target && forall b: nat :: end < b <= target ==> !IsCharBoundary(s, b)
       else forall b: nat :: start < b < end ==> !IsCharBoundary(s, b)
  }

  /** A chunk from `start` reaches the end of the text if it can, ends at the best breakpoint in reach if
      there is one, and otherwise at the rounded target. */
  ghost predicate EndsRight(s: seq<byte>, start: nat, chunkSize: nat, window: nat, end: nat) {
    var target := start + chunkSize;
    if target >= |s| then end == |s|
    else if exists bp :: IsInReach(s, bp, start, target, window) then IsBestEnd(s, start, target, window, end)
    else IsRoundedEnd(s, start, target, end)
  }

  lemma BestEndIs(s: seq<byte>, start: nat, target: nat, window: nat)
    requires exists bp :: IsInReach(s, bp, start, target, window)
    ensures BestBreakpoint(Scan(s, 0, false), start, target, window).Some?
    ensures IsBestEnd(s, start, target, window, BestBreakpoint(Scan(s, 0, false), start, target, window).value)
  {
    hide Scan, DecayedScore, BestOf;
    var bps := Scan(s, 0, false);
    BestIsMaximal(bps, start, target, window);
    var some :| IsInReach(s, some, start, target, window);
    assert IsCandidate(some, start, target, window);
    BestIsLastMaximum(bps, start, target, window);
    var k :| IsLastMaximum(bps, start, target, window, k) && bps[k] == BestOf(bps, start, target, window).value;
    forall rival | IsInReach(s, rival, start, target, window)
      ensures IsAtLeast(bps[k], rival, target, window)
      ensures rival.position > bps[k].position ==> !IsAtLeast(rival, bps[k], target, window)
    {
      RivalLoses(s, start, target, window, k, rival);
    }
    assert IsInReach(s, bps[k], start, target, window);
    assert IsUnbeaten(s, start, target, window, bps[k]);
  }

  lemma RivalLoses(s: seq<byte>, start: nat, target: nat, window: nat, k: nat, rival: Breakpoint)
    requires k < |Scan(s, 0, false)| && IsLastMaximum(Scan(s, 0, false), start, target, window, k)
    requires IsInReach(s, rival, start, target, window)
    ensures IsAtLeast(Scan(s, 0, false)[k], rival, target, window)
    ensures rival.position > Scan(s, 0, false)[k].position ==> !IsAtLeast(rival, Scan(s, 0, false)[k], target, window)
  {
    hide Scan, DecayedScore, IsAtLeast;
    var bps := Scan(s, 0, false);
    var j :| 0 <= j < |bps| && bps[j] == rival;
    DecayedOrderIff(rival, bps[k], target, window);
    DecayedOrderIff(bps[k], rival, target, window);
    if j < k { ScanIsSorted(s, 0, false, j, k); }
  }

  lemma FoundIsInReach(s: seq<byte>, start: nat, target: nat, window: nat)
    ensures BestBreakpoint(Scan(s, 0, false), start, target, window).Some? ==>
              exists bp :: IsInReach(s, bp, start, target, window)
  {
    hide Scan, DecayedScore, BestOf;
    BestIsMaximal(Scan(s, 0, false), start, target, window);
    var best := BestOf(Scan(s, 0, false), start, target, window);
    if best.Some? { assert IsInReach(s, best.value, start, target, window); }
  }

  lemma RoundedEndIs(s: seq<byte>, start: usize, chunkSize: usize)
    requires start < |s| <= ISIZE_MAX && start + chunkSize < |s|
    ensures IsRoundedEnd(s, start, start + chunkSize, FixedEnd(s, start, chunkSize))
  {
    hide IsCharBoundary;
  }

  lemma ChunkEndsRight(text: Str, chunkSize: usize, window: usize, start: usize)
    requires start < |text| && chunkSize > 0 && ValidCuts(text, Scan(text, 0, false))
    ensures EndsRight(text, start, chunkSize, window, ChunkEnd(text, Scan(text, 0, false), chunkSize, window, start))
  {
    hide WellFormed, Scan, BestBreakpoint, FixedEnd, IsBestEnd, IsRoundedEnd, ValidCuts, IsInReach;
    var target := start + chunkSize;
    if target < |text| {
      if exists bp :: IsInReach(text, bp, start, target, window) {
        BestEndIs(text, start, target, window);
      } else {
        FoundIsInReach(text, start, target, window);
        RoundedEndIs(text, start, chunkSize);
      }
    }
  }
}
