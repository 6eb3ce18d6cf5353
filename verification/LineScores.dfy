/** The scores of lines read off their bytes, against what the scanner produces: which line gives which
    breakpoint, and what the scores mean for the choice. */
module LineScores {
  import opened Prelude
  import opened Utf8
  import opened Lines
  import opened Breakpoints

  // -------------------------------------------------------------------------
  // Line kinds, byte by byte
  // -------------------------------------------------------------------------

  /** `n` hash signs, then the end, a space or a tab. */
  predicate IsHeading(t: seq<byte>, n: nat) {
    && 1 <= n <= 6 && n <= |t|
    && (forall k :: 0 <= k < n ==> t[k] == 0x23)
    && (n == |t| || t[n] == 0x20 || t[n] == 0x09)
  }

  /** Three grave accents or three tildes in front. */
  predicate IsFence(t: seq<byte>) {
    |t| >= 3 && t[0] == t[1] == t[2] && (t[0] == 0x60 || t[0] == 0x7E)
  }

  /** At least three hyphens, asterisks or underscores and nothing else. */
  predicate IsRule(t: seq<byte>) {
    && |t| >= 3 && (t[0] == 0x2D || t[0] == 0x2A || t[0] == 0x5F)
    && forall k :: 0 <= k < |t| ==> t[k] == t[0]
  }

  predicate IsBullet(t: seq<byte>) {
    |t| >= 2 && (t[0] == 0x2D || t[0] == 0x2A || t[0] == 0x2B) && t[1] == 0x20
  }

  /** `n` digits, a dot and a space. */
  predicate IsNumbered(t: seq<byte>, n: nat) {
    && 0 < n && n + 1 < |t| && t[n] == 0x2E && t[n + 1] == 0x20
    && forall k :: 0 <= k < n ==> 0x30 <= t[k] <= 0x39
  }

  ghost predicate IsItem(t: seq<byte>) { IsBullet(t) || exists n: nat :: IsNumbered(t, n) }

  /** What the start of the line scores outside a fence. */
  ghost predicate Marks(t: seq<byte>, score: nat) {
    || (exists n: nat :: IsHeading(t, n) && score == 110 - 10 * n)
    || (IsRule(t) && score == 60)
    || (IsItem(t) && score == 5)
  }

  // -------------------------------------------------------------------------
  // The classifiers agree
  // -------------------------------------------------------------------------

  lemma {:induction false} HashesAre(t: seq<byte>, i: nat)
    requires i <= |t|
    ensures forall k :: i <= k < HashesEnd(t, i) ==> t[k] == HASH
    ensures HashesEnd(t, i) < |t| ==> t[HashesEnd(t, i)] != HASH
    decreases |t| - i
  {
    if i < |t| && t[i] == HASH { HashesAre(t, i + 1); }
  }

  lemma HeadingScoreIs(t: seq<byte>, score: nat)
    ensures HeadingScore(t) == Some(score) <==> exists n: nat :: IsHeading(t, n) && score == 110 - 10 * n
  {
    HashesAre(t, 0);
    hide HashesEnd;
    var level := HashesEnd(t, 0);
    forall n: nat | IsHeading(t, n)
      ensures n == level
    {
    }
    if HeadingScore(t) == Some(score) { assert IsHeading(t, level); }
  }

  lemma FenceIs(t: seq<byte>)
    ensures IsCodeFence(t) <==> IsFence(t)
  {
  }

  lemma RuleIs(t: seq<byte>)
    ensures IsHorizontalRule(t) <==> IsRule(t)
  {
  }

  lemma {:induction false} DotSpaceIsFirst(t: seq<byte>, i: nat)
    requires i <= |t|
    ensures match FindDotSpace(t, i)
            case Some(r) => t[r] == DOT && t[r + 1] == SPACE
                            && forall k :: i <= k < r ==> !(t[k] == DOT && t[k + 1] == SPACE)
            case None => forall k :: i <= k < |t| - 1 ==> !(t[k] == DOT && t[k + 1] == SPACE)
    decreases |t| - i
  {
    if i + 1 < |t| && !(t[i] == DOT && t[i + 1] == SPACE) { DotSpaceIsFirst(t, i + 1); }
  }

  lemma NumberedIs(t: seq<byte>)
    ensures HasOrderedListMarker(t) <==> exists n: nat :: IsNumbered(t, n)
  {
    DotSpaceIsFirst(t, 0);
    hide FindDotSpace;
    if HasOrderedListMarker(t) { assert IsNumbered(t, FindDotSpace(t, 0).value); }
    forall n: nat | IsNumbered(t, n)
      ensures FindDotSpace(t, 0) == Some(n)
    {
    }
  }

  lemma ItemIs(t: seq<byte>)
    ensures IsListItem(t) <==> IsItem(t)
  {
    NumberedIs(t);
    hide HasOrderedListMarker, IsNumbered;
  }

  // -------------------------------------------------------------------------
  // Fences
  // -------------------------------------------------------------------------

  function FenceStarts(s: seq<byte>, from: nat, p: nat): set<nat> {
    set q: nat | from <= q < p && q < |s| && IsLineStart(s, q) && IsFence(TrimmedLine(s, q))
  }

  lemma FenceLineIs(s: seq<byte>, q: nat)
    ensures IsFenceLine(s, q) <==> q < |s| && IsLineStart(s, q) && IsFence(TrimmedLine(s, q))
  {
    hide IsCodeFence, IsFence, TrimmedLine;
    if q < |s| { FenceIs(TrimmedLine(s, q)); }
  }

  lemma {:induction false} FencesAreCounted(s: seq<byte>, from: nat, p: nat)
    requires from <= |s| && (from < |s| ==> IsLineStart(s, from))
    ensures FencesBetween(s, from, p) == |FenceStarts(s, from, p)|
    decreases |s| - from
  {
    hide IsFenceLine, TrimmedLine, IsFence, IsLineStart;
    if from < p && from < |s| {
      var next := NextLine(s, from);
      FencesAreCounted(s, next, p);
      FenceLineIs(s, from);
      forall q: nat | from < q < next && q < |s|
        ensures !IsLineStart(s, q)
      {
        NoLineStart(s, from, q);
      }
      hide NextLine;
      OneMoreFence(s, from, next, p);
    } else {
      assert FenceStarts(s, from, p) == {};
    }
  }

  lemma OneMoreFence(s: seq<byte>, from: nat, next: nat, p: nat)
    requires from < next && from < p && from < |s|
    requires forall q: nat :: from < q < next && q < |s| ==> !IsLineStart(s, q)
    ensures |FenceStarts(s, from, p)|
         == |FenceStarts(s, next, p)| + if IsLineStart(s, from) && IsFence(TrimmedLine(s, from)) then 1 else 0
  {
    hide TrimmedLine, IsFence, IsLineStart;
    var rest := FenceStarts(s, next, p);
    if IsLineStart(s, from) && IsFence(TrimmedLine(s, from)) {
      assert FenceStarts(s, from, p) == {from} + rest;
    } else {
      assert FenceStarts(s, from, p) == rest;
    }
  }

  lemma NoLineStart(s: seq<byte>, from: nat, q: nat)
    requires from < q < |s| && q < NextLine(s, from)
    ensures !IsLineStart(s, q)
  {
    if IsLineStart(s, q) { NoLineStartInside(s, from, q); }
  }

  /** An even number of fence lines starts before `q`. */
  predicate IsOutside(s: seq<byte>, q: nat) { |FenceStarts(s, 0, q)| % 2 == 0 }

  lemma OutsideIs(s: seq<byte>, q: nat)
    ensures IsOutside(s, q) <==> !InFence(s, q)
  {
    FencesAreCounted(s, 0, q);
    hide FencesBetween, FenceStarts;
  }

  // -------------------------------------------------------------------------
  // Every breakpoint and its line
  // -------------------------------------------------------------------------

  /** The line at `q` gives the breakpoint: 80 for a fence line; outside fences the score of its kind at its
      start, and at the start of the next line 1, and 20 after a blank line. */
  ghost predicate LineGives(s: seq<byte>, q: nat, bp: Breakpoint)
    requires q < |s|
  {
    var t := TrimmedLine(s, q);
    && 0 < bp.position < |s|
    && if IsFence(t) then bp == Breakpoint(q, 80)
       else
         && IsOutside(s, q)
         && (|| (bp.position == q && Marks(t, bp.score))
             || (bp.position == NextLine(s, q) && (bp.score == 1 || (t == [] && bp.score == 20))))
  }

  /** The classifiers in the order in which the scanner asks them. */
  function KindScore(t: seq<byte>): Option<nat> {
    if HeadingScore(t).Some? then HeadingScore(t)
    else if IsHorizontalRule(t) then Some(60)
    else if t != [] && IsListItem(t) then Some(5)
    else None
  }

  lemma KindScoreIs(t: seq<byte>, score: nat)
    ensures KindScore(t) == Some(score) <==> Marks(t, score)
    ensures t == [] ==> KindScore(t).None?
  {
    HeadingScoreIs(t, score);
    if HeadingScore(t).Some? { HeadingScoreIs(t, HeadingScore(t).value); }
    RuleIs(t);
    ItemIs(t);
    KindsExclude(t);
    hide HeadingScore, IsHorizontalRule, IsListItem, IsHeading, IsRule, IsItem;
  }

  lemma MarkedLineByKind(s: seq<byte>, q: nat)
    requires q < |s|
    ensures var t := TrimmedLine(s, q);
            MarkedLine(s, q) == match KindScore(t)
                                case Some(score) => Kept(q, score, |s|)
                                case None => if t == [] then Kept(NextLine(s, q), 20, |s|) else []
  {
    EmptyIsNoItem();
    hide HeadingScore, IsHorizontalRule, IsListItem, TrimmedLine, NextLine, Kept;
  }

  lemma EmptyIsNoItem()
    ensures !IsListItem([]) && HeadingScore([]).None? && !IsHorizontalRule([])
  {
  }

  lemma KeptIs(position: nat, score: nat, contentLen: nat, bp: Breakpoint)
    ensures bp in Kept(position, score, contentLen) <==> 0 < position < contentLen && bp == Breakpoint(position, score)
  {
  }

  lemma MarkedLineIs(s: seq<byte>, q: nat, bp: Breakpoint)
    requires q < |s|
    ensures bp in MarkedLine(s, q) <==>
            && 0 < bp.position < |s|
            && (|| (bp.position == q && Marks(TrimmedLine(s, q), bp.score))
                || (bp.position == NextLine(s, q) && TrimmedLine(s, q) == [] && bp.score == 20))
  {
    var t := TrimmedLine(s, q);
    MarkedLineByKind(s, q);
    KindScoreIs(t, bp.score);
    if KindScore(t).Some? { KeptIs(q, KindScore(t).value, |s|, bp); }
    KeptIs(NextLine(s, q), 20, |s|, bp);
    hide MarkedLine, KindScore, Kept, TrimmedLine, NextLine, Marks;
  }

  /** No line is of two kinds. */
  lemma KindsExclude(t: seq<byte>)
    ensures forall n: nat :: IsHeading(t, n) ==> !IsRule(t) && !IsItem(t) && t != []
    ensures IsRule(t) ==> !IsItem(t) && t != []
    ensures IsItem(t) ==> t != []
  {
  }

  lemma LineBreakpointsAre(s: seq<byte>, q: nat, bp: Breakpoint)
    requires q < |s| && IsLineStart(s, q)
    ensures bp in LineBreakpoints(s, q, InFence(s, q)) <==> LineGives(s, q, bp)
  {
    LineStep(s, q, InFence(s, q));
    FenceIs(TrimmedLine(s, q));
    OutsideIs(s, q);
    MarkedLineIs(s, q, bp);
    hide LineBreakpoints, MarkedLine, TrimmedLine, IsFence, IsCodeFence, Marks, InFence, IsOutside, NextLine;
  }

  /** The scan has exactly the breakpoints that the bytes of some line give. */
  lemma ScanIsExactly(s: seq<byte>, bp: Breakpoint)
    ensures bp in Scan(s, 0, false) <==> exists q: nat :: q < |s| && IsLineStart(s, q) && LineGives(s, q, bp)
  {
    ScanMeetsReference(s, bp);
    hide Scan, LineBreakpoints, LineGives, InFence;
    if bp in Scan(s, 0, false) {
      var q: nat :| q < |s| && IsLineStart(s, q) && bp in LineBreakpoints(s, q, InFence(s, q));
      LineBreakpointsAre(s, q, bp);
    }
    forall q: nat | q < |s| && IsLineStart(s, q) && LineGives(s, q, bp)
      ensures bp in Scan(s, 0, false)
    {
      LineBreakpointsAre(s, q, bp);
      assert IsOwed(s, bp);
    }
  }

  // -------------------------------------------------------------------------
  // Kind by kind
  // -------------------------------------------------------------------------

  /** The breakpoint is there, and the others at its place come from the line before. */
  ghost predicate OnlyMark(s: seq<byte>, bp: Breakpoint) {
    && bp in Scan(s, 0, false)
    && forall other :: other in Scan(s, 0, false) && other.position == bp.position ==>
         other == bp || other.score == 1 || other.score == 20
  }

  lemma MarkIsOnly(s: seq<byte>, q: nat, score: nat)
    requires 0 < q < |s| && IsLineStart(s, q) && IsOutside(s, q)
    requires !IsFence(TrimmedLine(s, q)) && Marks(TrimmedLine(s, q), score)
    ensures OnlyMark(s, Breakpoint(q, score))
  {
    hide Scan, Marks, TrimmedLine, IsFence, NextLine;
    ScanIsExactly(s, Breakpoint(q, score));
    assert LineGives(s, q, Breakpoint(q, score));
    forall other | other in Scan(s, 0, false) && other.position == q
      ensures other == Breakpoint(q, score) || other.score == 1 || other.score == 20
    {
      ScanIsExactly(s, other);
      var p: nat :| p < |s| && IsLineStart(s, p) && LineGives(s, p, other);
      if p == q {
        NextIsLater(s, q);
        if Marks(TrimmedLine(s, q), other.score) { MarkIsUnique(TrimmedLine(s, q), score, other.score); }
      }
    }
  }

  lemma NextIsLater(s: seq<byte>, q: nat)
    requires q < |s|
    ensures NextLine(s, q) > q
  {
  }

  lemma MarkIsUnique(t: seq<byte>, x: nat, y: nat)
    requires Marks(t, x) && Marks(t, y)
    ensures x == y
  {
    KindsExclude(t);
    forall m: nat, n: nat | IsHeading(t, m) && IsHeading(t, n)
      ensures m == n
    {
      HeadingScoreIs(t, 110 - 10 * m);
      HeadingScoreIs(t, 110 - 10 * n);
    }
    hide IsHeading, IsRule, IsItem;
  }

  /** Outside a fence a heading of level `n` scores `110 - 10 * n` at its start. */
  lemma HeadingIsScored(s: seq<byte>, q: nat, n: nat)
    requires 0 < q < |s| && IsLineStart(s, q) && IsOutside(s, q) && IsHeading(TrimmedLine(s, q), n)
    ensures OnlyMark(s, Breakpoint(q, 110 - 10 * n))
  {
    hide Scan, TrimmedLine, OnlyMark, IsOutside;
    MarkIsOnly(s, q, 110 - 10 * n);
  }

  lemma RuleIsScored(s: seq<byte>, q: nat)
    requires 0 < q < |s| && IsLineStart(s, q) && IsOutside(s, q) && IsRule(TrimmedLine(s, q))
    ensures OnlyMark(s, Breakpoint(q, 60))
  {
    hide Scan, TrimmedLine, OnlyMark, IsOutside;
    MarkIsOnly(s, q, 60);
  }

  lemma ItemIsScored(s: seq<byte>, q: nat)
    requires 0 < q < |s| && IsLineStart(s, q) && IsOutside(s, q) && IsItem(TrimmedLine(s, q))
    ensures OnlyMark(s, Breakpoint(q, 5))
  {
    hide Scan, TrimmedLine, OnlyMark, IsOutside;
    MarkIsOnly(s, q, 5);
  }

  /** A fence line scores 80, whether it opens or closes. */
  lemma FenceIsScored(s: seq<byte>, q: nat)
    requires 0 < q < |s| && IsLineStart(s, q) && IsFence(TrimmedLine(s, q))
    ensures OnlyMark(s, Breakpoint(q, 80))
  {
    hide Scan, Marks, TrimmedLine, IsFence, NextLine;
    ScanIsExactly(s, Breakpoint(q, 80));
    assert LineGives(s, q, Breakpoint(q, 80));
    forall other | other in Scan(s, 0, false) && other.position == q
      ensures other == Breakpoint(q, 80) || other.score == 1 || other.score == 20
    {
      ScanIsExactly(s, other);
      var p: nat :| p < |s| && IsLineStart(s, p) && LineGives(s, p, other);
    }
  }

  /** After a blank line outside a fence the next line scores 20. */
  lemma BlankIsScored(s: seq<byte>, q: nat)
    requires q < |s| && IsLineStart(s, q) && IsOutside(s, q) && TrimmedLine(s, q) == [] && NextLine(s, q) < |s|
    ensures Breakpoint(NextLine(s, q), 20) in Scan(s, 0, false)
  {
    hide Scan, Marks, TrimmedLine, NextLine;
    ScanIsExactly(s, Breakpoint(NextLine(s, q), 20));
    NextIsLater(s, q);
    assert LineGives(s, q, Breakpoint(NextLine(s, q), 20));
  }

  /** Every line outside a fence that is no fence line scores 1 for the line after it. */
  lemma LineEndIsScored(s: seq<byte>, q: nat)
    requires q < |s| && IsLineStart(s, q) && IsOutside(s, q) && !IsFence(TrimmedLine(s, q)) && NextLine(s, q) < |s|
    ensures Breakpoint(NextLine(s, q), 1) in Scan(s, 0, false)
  {
    hide Scan, Marks, TrimmedLine, NextLine, IsFence;
    ScanIsExactly(s, Breakpoint(NextLine(s, q), 1));
    NextIsLater(s, q);
    assert LineGives(s, q, Breakpoint(NextLine(s, q), 1));
  }

  // -------------------------------------------------------------------------
  // What the scores mean
  // -------------------------------------------------------------------------

  lemma ScoresArePositive(s: seq<byte>)
    ensures forall bp :: bp in Scan(s, 0, false) ==> bp.score > 0
  {
    hide Scan;
    forall bp | bp in Scan(s, 0, false)
      ensures bp.score > 0
    {
      BreakpointPlaces(s, bp);
    }
  }

  /** A heading in the window is never passed over for an earlier heading that is no higher in level: of
      two headings the one nearer the target wins unless the other one is of a higher level. */
  lemma HeadingIsNotPassedOver(s: seq<byte>, start: nat, target: nat, window: nat, q: nat, n: nat, p: nat, m: nat)
    requires p < q < |s| && 0 < p && IsLineStart(s, p) && IsLineStart(s, q) && IsOutside(s, p) && IsOutside(s, q)
    requires IsHeading(TrimmedLine(s, q), n) && IsHeading(TrimmedLine(s, p), m) && n <= m
    requires IsCandidate(Breakpoint(q, 110 - 10 * n), start, target, window)
    ensures BestBreakpoint(Scan(s, 0, false), start, target, window) != Some(p)
  {
    hide Scan, TrimmedLine, IsHeading, IsOutside;
    HeadingIsScored(s, q, n);
    HeadingIsScored(s, p, m);
    HeadingLevel(TrimmedLine(s, q), n);
    HeadingLevel(TrimmedLine(s, p), m);
    ScoresArePositive(s);
    ChoiceIsSound(Scan(s, 0, false), start, target, window, Breakpoint(q, 110 - 10 * n));
    BestIsMaximal(Scan(s, 0, false), start, target, window);
  }

  lemma HeadingLevel(t: seq<byte>, n: nat)
    requires IsHeading(t, n)
    ensures 1 <= n <= 6
  {
  }
}
