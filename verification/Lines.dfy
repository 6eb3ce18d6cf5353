/** Markdown-like classification of one trimmed line, on bytes. */
module Lines {
  import opened Prelude
  import opened Utf8

  const NEWLINE: byte := 0x0A
  const SPACE: byte := 0x20
  const TAB: byte := 0x09
  const HASH: byte := 0x23
  const STAR: byte := 0x2A
  const PLUS: byte := 0x2B
  const MINUS: byte := 0x2D
  const DOT: byte := 0x2E
  const UNDERSCORE: byte := 0x5F
  const BACKTICK: byte := 0x60
  const TILDE: byte := 0x7E

  // -------------------------------------------------------------------------
  // `str::trim`
  // -------------------------------------------------------------------------

  /** Length of the Unicode `White_Space` scalar at `i`, within `s[..end]`; 0 if there is none. */
  function WhiteSpaceAt(s: seq<byte>, i: nat, end: nat): (n: nat)
    requires i <= end <= |s|
    ensures i + n <= end
  {
    if i == end then 0
    else if 0x09 <= s[i] <= 0x0D || s[i] == SPACE then 1
    else if i + 1 == end then 0
    else if s[i] == 0xC2 && (s[i + 1] == 0x85 || s[i + 1] == 0xA0) then 2
    else if i + 2 == end then 0
    else if s[i] == 0xE1 && s[i + 1] == 0x9A && s[i + 2] == 0x80 then 3
    else if s[i] == 0xE2 && s[i + 1] == 0x80
            && (0x80 <= s[i + 2] <= 0x8A || s[i + 2] == 0xA8 || s[i + 2] == 0xA9 || s[i + 2] == 0xAF) then 3
    else if s[i] == 0xE2 && s[i + 1] == 0x81 && s[i + 2] == 0x9F then 3
    else if s[i] == 0xE3 && s[i + 1] == 0x80 && s[i + 2] == 0x80 then 3
    else 0
  }

  /** Length of the `White_Space` scalar that `s[start..i]` ends with. */
  function WhiteSpaceBefore(s: seq<byte>, start: nat, i: nat): (n: nat)
    requires start <= i <= |s|
    ensures start + n <= i
  {
    if i - start >= 1 && WhiteSpaceAt(s, i - 1, i) == 1 then 1
    else if i - start >= 2 && WhiteSpaceAt(s, i - 2, i) == 2 then 2
    else if i - start >= 3 && WhiteSpaceAt(s, i - 3, i) == 3 then 3
    else 0
  }

  /** First place from `i` on where no white space begins. */
  function TrimStart(s: seq<byte>, i: nat): (start: nat)
    requires i <= |s|
    ensures i <= start <= |s|
    ensures WhiteSpaceAt(s, start, |s|) == 0
    decreases |s| - i
  {
    var n := WhiteSpaceAt(s, i, |s|);
    if n == 0 then i else TrimStart(s, i + n)
  }

  /** Last place down from `i` where no white space ends. */
  function TrimEnd(s: seq<byte>, start: nat, i: nat): (end: nat)
    requires start <= i <= |s|
    ensures start <= end <= i
    ensures WhiteSpaceBefore(s, start, end) == 0
    decreases i
  {
    var n := WhiteSpaceBefore(s, start, i);
    if n == 0 then i else TrimEnd(s, start, i - n)
  }

  function Trim(s: seq<byte>): seq<byte> {
    var start := TrimStart(s, 0);
    s[start..TrimEnd(s, start, |s|)]
  }

  // -------------------------------------------------------------------------
  // Line kinds
  // -------------------------------------------------------------------------

  predicate StartsWith(s: seq<byte>, prefix: seq<byte>) { prefix <= s }

  /** First place from `i` on without a hash sign. */
  function HashesEnd(s: seq<byte>, i: nat): (n: nat)
    requires i <= |s|
    ensures i <= n <= |s|
    decreases |s| - i
  {
    if i < |s| && s[i] == HASH then HashesEnd(s, i + 1) else i
  }

  /** Levels 1 to 6 score 100, 90, 80, 70, 60, 50. */
  function HeadingScore(trimmed: seq<byte>): Option<nat> {
    var level := HashesEnd(trimmed, 0);
    if !(1 <= level <= 6) then None
    else if level < |trimmed| && trimmed[level] != SPACE && trimmed[level] != TAB then None
    else Some(110 - 10 * level)
  }

  predicate IsCodeFence(trimmed: seq<byte>) {
    || StartsWith(trimmed, [BACKTICK, BACKTICK, BACKTICK])
    || StartsWith(trimmed, [TILDE, TILDE, TILDE])
  }

  predicate AllBytes(s: seq<byte>, b: byte) { forall k :: 0 <= k < |s| ==> s[k] == b }

  predicate IsHorizontalRule(trimmed: seq<byte>) {
    && |trimmed| >= 3
    && (AllBytes(trimmed, MINUS) || AllBytes(trimmed, STAR) || AllBytes(trimmed, UNDERSCORE))
  }

  /** Position of the first ". " from `i` on. */
  function FindDotSpace(s: seq<byte>, i: nat): (r: Option<nat>)
    requires i <= |s|
    ensures r.Some? ==> i <= r.value && r.value + 1 < |s|
    decreases |s| - i
  {
    if i + 1 >= |s| then None
    else if s[i] == DOT && s[i + 1] == SPACE then Some(i)
    else FindDotSpace(s, i + 1)
  }

  predicate HasOrderedListMarker(trimmed: seq<byte>) {
    match FindDotSpace(trimmed, 0)
    case None => false
    case Some(n) => n > 0 && forall k :: 0 <= k < n ==> 0x30 <= trimmed[k] <= 0x39
  }

  predicate IsListItem(trimmed: seq<byte>) {
    || StartsWith(trimmed, [MINUS, SPACE])
    || StartsWith(trimmed, [STAR, SPACE])
    || StartsWith(trimmed, [PLUS, SPACE])
    || HasOrderedListMarker(trimmed)
  }

  // -------------------------------------------------------------------------
  // Line positions
  // -------------------------------------------------------------------------

  /** First newline at or after `from`, or the end of the text. */
  function LineEnd(s: seq<byte>, from: nat): (e: nat)
    requires from <= |s|
    ensures from <= e <= |s|
    ensures e < |s| ==> s[e] == NEWLINE
    ensures forall k :: from <= k < e ==> s[k] != NEWLINE
    decreases |s| - from
  {
    if from == |s| || s[from] == NEWLINE then from else LineEnd(s, from + 1)
  }

  function NextLine(s: seq<byte>, from: nat): (n: nat)
    requires from <= |s|
    ensures from < |s| ==> from < n
    ensures n <= |s|
    ensures n < |s| ==> IsLineStart(s, n)
  {
    if LineEnd(s, from) < |s| then LineEnd(s, from) + 1 else |s|
  }

  function TrimmedLine(s: seq<byte>, from: nat): seq<byte>
    requires from <= |s|
  {
    Trim(s[from..LineEnd(s, from)])
  }

  predicate IsLineStart(s: seq<byte>, p: nat) {
    p == 0 || (p <= |s| && s[p - 1] == NEWLINE)
  }

  predicate IsFenceLine(s: seq<byte>, p: nat) {
    p < |s| && IsLineStart(s, p) && IsCodeFence(TrimmedLine(s, p))
  }

  /** Lines do not overlap: no line starts inside another one. */
  lemma NoLineStartInside(s: seq<byte>, from: nat, p: nat)
    requires from < p <= |s| && IsLineStart(s, p)
    ensures NextLine(s, from) <= p
  {
  }

  lemma LineStartIsBoundary(s: seq<byte>, p: nat)
    requires WellFormed(s) && p <= |s| && IsLineStart(s, p)
    ensures IsCharBoundary(s, p)
    ensures IsCharBoundary(s, LineEnd(s, p))
  {
    if p > 0 { AfterAsciiIsBoundary(s, p - 1); }
  }
}
