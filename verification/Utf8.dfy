/** Well-formed UTF-8 (RFC 3629, sections 3 and 4), scalar boundaries, and the two loops that move
    an index to one. Text is a sequence of bytes, as in a Rust `str`. */
module Utf8 {
  import opened Prelude

  type byte = b: int | 0 <= b < 256

  /** Bytes allowed after the lead byte of a scalar (UTF8-tail in RFC 3629). */
  predicate IsContinuation(b: byte) { 0x80 <= b <= 0xBF }

  /** Length announced by a lead byte; 0 for a byte that starts no scalar. */
  function Width(lead: byte): nat {
    if lead <= 0x7F then 1
    else if 0xC2 <= lead <= 0xDF then 2
    else if 0xE0 <= lead <= 0xEF then 3
    else if 0xF0 <= lead <= 0xF4 then 4
    else 0
  }

  /** The second byte excludes overlong forms, surrogates and values above U+10FFFF. */
  predicate SecondOk(lead: byte, second: byte) {
    if lead == 0xE0 then 0xA0 <= second <= 0xBF
    else if lead == 0xED then 0x80 <= second <= 0x9F
    else if lead == 0xF0 then 0x90 <= second <= 0xBF
    else if lead == 0xF4 then 0x80 <= second <= 0x8F
    else IsContinuation(second)
  }

  /** Every byte present agrees with a scalar starting at `s[0]`. */
  predicate AgreesWithScalar(s: seq<byte>) {
    && s != []
    && Width(s[0]) > 0
    && (Width(s[0]) > 1 && |s| > 1 ==> SecondOk(s[0], s[1]))
    && (Width(s[0]) > 2 && |s| > 2 ==> IsContinuation(s[2]))
    && (Width(s[0]) > 3 && |s| > 3 ==> IsContinuation(s[3]))
  }

  predicate StartsWithScalar(s: seq<byte>) { AgreesWithScalar(s) && Width(s[0]) <= |s| }

  /** The input stops inside a scalar that is valid so far. */
  predicate IsCutScalar(s: seq<byte>) { AgreesWithScalar(s) && |s| < Width(s[0]) }

  predicate WellFormed(s: seq<byte>) {
    s == [] || (StartsWithScalar(s) && WellFormed(s[Width(s[0])..]))
  }

  /** A Rust string slice. */
  type Str = s: seq<byte> | WellFormed(s) && |s| <= ISIZE_MAX witness []

  /** `str::is_char_boundary`. */
  predicate IsCharBoundary(s: seq<byte>, i: nat) {
    i == 0 || i == |s| || (i < |s| && !IsContinuation(s[i]))
  }

  // -------------------------------------------------------------------------
  // Decoding
  // -------------------------------------------------------------------------

  /** Number of bytes a left-to-right decoder accepts before it stops. */
  function ValidUpTo(s: seq<byte>): (n: nat)
    ensures n <= |s|
  {
    if StartsWithScalar(s) then Width(s[0]) + ValidUpTo(s[Width(s[0])..]) else 0
  }

  lemma ScalarOfPrefix(s: seq<byte>, n: nat)
    requires StartsWithScalar(s) && Width(s[0]) <= n <= |s|
    ensures StartsWithScalar(s[..n])
  {
  }

  lemma {:induction false} ValidUpToStops(s: seq<byte>)
    ensures WellFormed(s[..ValidUpTo(s)])
    ensures !StartsWithScalar(s[ValidUpTo(s)..])
  {
    if StartsWithScalar(s) {
      var w, n := Width(s[0]), ValidUpTo(s);
      ScalarOfPrefix(s, n);
      hide SecondOk, IsContinuation;
      ValidUpToStops(s[w..]);
      assert s[..n][w..] == s[w..][..n - w];
      assert s[n..] == s[w..][n - w..];
    }
  }

  /** What `str::from_utf8` reports: on failure, `validUpTo` and whether `error_len` is `None`,
      that is, whether the input ended inside a scalar. */
  datatype Decoded = Valid | Invalid(validUpTo: nat, inputEnded: bool)

  function FromUtf8(s: seq<byte>): (r: Decoded)
    ensures r.Invalid? ==> r.validUpTo < |s|
  {
    var n := ValidUpTo(s);
    if n == |s| then Valid else Invalid(n, IsCutScalar(s[n..]))
  }

  predicate Completes(s: seq<byte>, t: seq<byte>) { WellFormed(s + t) }

  /** `s` is the beginning of some well-formed text. */
  ghost predicate IsBeginning(s: seq<byte>) {
    exists t: seq<byte> :: Completes(s, t)
  }

  lemma {:induction false} WellFormedAppend(a: seq<byte>, b: seq<byte>)
    requires WellFormed(a)
    ensures WellFormed(a + b) <==> WellFormed(b)
    ensures ValidUpTo(a + b) == |a| + ValidUpTo(b)
  {
    if a == [] {
      assert a + b == b;
    } else {
      var w := Width(a[0]);
      assert (a + b)[w..] == a[w..] + b;
      WellFormedAppend(a[w..], b);
    }
  }

  lemma ValidUpToWhole(s: seq<byte>)
    ensures ValidUpTo(s) == |s| <==> WellFormed(s)
  {
    if WellFormed(s) {
      WellFormedAppend(s, []);
      assert s + [] == s;
    } else {
      ValidUpToStops(s);
      assert s[..|s|] == s;
    }
  }

  /** The decoder stops at the end of the longest well-formed prefix. */
  lemma ValidUpToIsLongest(s: seq<byte>, n: nat)
    requires n <= |s| && WellFormed(s[..n])
    ensures n <= ValidUpTo(s)
  {
    assert s == s[..n] + s[n..];
    WellFormedAppend(s[..n], s[n..]);
  }

  /** The bytes that complete a cut scalar. */
  function Completion(s: seq<byte>): (t: seq<byte>)
    requires IsCutScalar(s)
    ensures StartsWithScalar(s + t) && |s + t| == Width(s[0])
  {
    var second: byte := if s[0] == 0xE0 then 0xA0 else if s[0] == 0xF0 then 0x90 else 0x80;
    var whole := (if |s| == 1 then s + [second] else s) + [0x80, 0x80];
    assert s + whole[|s|..Width(s[0])] == whole[..Width(s[0])];
    whole[|s|..Width(s[0])]
  }

  lemma CutScalarIsBeginning(s: seq<byte>)
    requires IsCutScalar(s)
    ensures IsBeginning(s)
  {
    var t := Completion(s);
    assert (s + t)[Width(s[0])..] == [];
    assert Completes(s, t);
  }

  lemma BeginningIsCutScalar(s: seq<byte>)
    requires s != [] && !StartsWithScalar(s) && IsBeginning(s)
    ensures IsCutScalar(s)
  {
    var t: seq<byte> :| Completes(s, t);
    assert AgreesWithScalar(s + t);
    assert (s + t)[0] == s[0];
    assert |s| > 1 ==> (s + t)[1] == s[1];
  }

  lemma BeginningAppend(a: seq<byte>, b: seq<byte>)
    requires WellFormed(a)
    ensures IsBeginning(a + b) <==> IsBeginning(b)
  {
    forall t: seq<byte>
      ensures Completes(a + b, t) <==> Completes(b, t)
    {
      assert a + b + t == a + (b + t);
      WellFormedAppend(a, b + t);
    }
  }

  lemma WellFormedIsBeginning(s: seq<byte>)
    requires WellFormed(s)
    ensures IsBeginning(s)
  {
    assert s + [] == s;
    assert Completes(s, []);
  }

  /** The decoder tells apart a text that may go on from one that is already wrong. */
  lemma DecodedMeaning(s: seq<byte>)
    ensures FromUtf8(s).Valid? <==> WellFormed(s)
    ensures FromUtf8(s).Valid? || FromUtf8(s).inputEnded <==> IsBeginning(s)
  {
    ValidUpToWhole(s);
    ValidUpToStops(s);
    var n := ValidUpTo(s);
    assert s == s[..n] + s[n..];
    BeginningAppend(s[..n], s[n..]);
    if n == |s| {
      WellFormedIsBeginning(s);
    } else if IsCutScalar(s[n..]) {
      CutScalarIsBeginning(s[n..]);
    } else if IsBeginning(s[n..]) {
      BeginningIsCutScalar(s[n..]);
    }
  }

  lemma BeginningOfBeginning(s: seq<byte>, n: nat)
    requires n <= |s| && IsBeginning(s)
    ensures IsBeginning(s[..n])
  {
    var t: seq<byte> :| Completes(s, t);
    assert s[..n] + (s[n..] + t) == s + t;
    assert Completes(s[..n], s[n..] + t);
  }

  // -------------------------------------------------------------------------
  // Boundaries
  // -------------------------------------------------------------------------

  /** The boundary test looks at one byte, yet in well-formed text it finds exactly the places
      where the text splits into two well-formed halves. */
  lemma {:induction false} BoundarySplits(s: seq<byte>, i: nat)
    requires WellFormed(s) && i <= |s|
    ensures IsCharBoundary(s, i) <==> WellFormed(s[..i])
    ensures IsCharBoundary(s, i) <==> WellFormed(s[..i]) && WellFormed(s[i..])
  {
    if s == [] || i == 0 {
      assert s[..i] == [] && s[i..] == s;
    } else {
      var w := Width(s[0]);
      if i < w {
        assert IsContinuation(s[i]);
        assert !StartsWithScalar(s[..i]);
      } else {
        var rest := s[w..];
        ScalarOfPrefix(s, i);
        hide SecondOk, Width;
        BoundarySplits(rest, i - w);
        assert s[..i][w..] == rest[..i - w];
        assert s[i..] == rest[i - w..];
      }
    }
  }

  /** A boundary of a prefix that ends at a boundary is a boundary of the whole, and back. */
  lemma BoundaryOfPrefix(s: seq<byte>, n: nat, i: nat)
    requires WellFormed(s) && i <= n <= |s| && IsCharBoundary(s, n)
    ensures IsCharBoundary(s[..n], i) <==> IsCharBoundary(s, i)
  {
  }

  /** The scalar at a boundary ends at a boundary. */
  lemma ScalarEndsAtBoundary(s: seq<byte>, i: nat)
    requires WellFormed(s) && i < |s| && IsCharBoundary(s, i)
    ensures Width(s[i]) > 0 && i + Width(s[i]) <= |s| && IsCharBoundary(s, i + Width(s[i]))
  {
    BoundarySplits(s, i);
    var rest := s[i..];
    var w := Width(rest[0]);
    assert rest[w..] == s[i + w..];
    if i + w < |s| {
      assert StartsWithScalar(rest[w..]);
    }
  }

  lemma TailIsContinuation(s: seq<byte>, k: nat)
    requires StartsWithScalar(s) && 0 < k < Width(s[0])
    ensures IsContinuation(s[k])
  {
  }

  /** No boundary lies inside a scalar. */
  lemma NoBoundaryInsideScalar(s: seq<byte>, i: nat, k: nat)
    requires WellFormed(s) && i < k < |s| && IsCharBoundary(s, i) && k < i + Width(s[i])
    ensures !IsCharBoundary(s, k)
  {
    BoundarySplits(s, i);
    assert StartsWithScalar(s[i..]);
    hide WellFormed, AgreesWithScalar;
    TailIsContinuation(s[i..], k - i);
  }

  /** The place after an ASCII byte is a boundary. */
  lemma AfterAsciiIsBoundary(s: seq<byte>, i: nat)
    requires WellFormed(s) && i < |s| && s[i] < 0x80
    ensures IsCharBoundary(s, i + 1)
  {
    ScalarEndsAtBoundary(s, i);
  }

  /** Greatest boundary at or below `index`, clipped to the length. */
  function Floor(s: seq<byte>, index: nat): (r: nat)
    ensures r <= index && r <= |s| && IsCharBoundary(s, r)
    ensures forall k: nat :: r < k <= index && k <= |s| ==> !IsCharBoundary(s, k)
    decreases index
  {
    if index > |s| then |s|
    else if IsCharBoundary(s, index) then index
    else Floor(s, index - 1)
  }

  /** Least boundary at or above `index`, clipped to the length. */
  function Ceil(s: seq<byte>, index: nat): (r: nat)
    ensures r <= |s| && IsCharBoundary(s, r)
    ensures index <= |s| ==> index <= r
    ensures forall k: nat :: index <= k < r ==> !IsCharBoundary(s, k)
    decreases |s| - index
  {
    if index >= |s| then |s|
    else if IsCharBoundary(s, index) then index
    else Ceil(s, index + 1)
  }

  method FloorCharBoundary(content: Str, index: usize) returns (r: usize)
    ensures r == Floor(content, index)
  {
    r := Min(index, |content|);
    while r > 0 && !IsCharBoundary(content, r)
      invariant 0 <= r <= |content|
      invariant Floor(content, r) == Floor(content, index)
    {
      r := r - 1;
    }
  }

  method CeilCharBoundary(content: Str, index: usize) returns (r: usize)
    ensures r == Ceil(content, index)
  {
    r := Min(index, |content|);
    while r < |content| && !IsCharBoundary(content, r)
      invariant 0 <= r <= |content|
      invariant Ceil(content, r) == Ceil(content, index)
    {
      r := r + 1;
    }
  }

  /** A scalar has at most four bytes, so rounding moves an index by at most three. */
  lemma RoundingIsShort(s: seq<byte>, i: nat)
    requires WellFormed(s) && i <= |s|
    ensures i - 3 <= Floor(s, i)
    ensures Ceil(s, i) <= i + 3
  {
    var r := Floor(s, i);
    if r < i {
      ScalarEndsAtBoundary(s, r);
      var next := r + Width(s[r]);
      assert IsCharBoundary(s, next);
    }
  }
}
