/** The bounded read: at most `budget + 3` bytes are read, and a scalar-aligned prefix of at most
    `budget` bytes is recovered from them. */
module ContentRead {
  import opened Prelude
  import opened Utf8
  import opened Scalars

  const CONTENT_PROBE_BYTES: nat := 8 * 1024
  const CONTENT_BYTE_BUDGET: usize := 1024 * 1024
  const UTF8_MAX_SCALAR_BYTES: nat := 4

  datatype ContentReadPlan = ContentReadPlan(
    content: Option<seq<byte>>,
    contentUtf8: bool,
    contentTruncated: bool,
    contentBytesIndexed: nat,
    contentByteBudget: nat)

  /** A file that can be held in memory. */
  type FileBytes = f: seq<byte> | |f| <= ISIZE_MAX witness []

  // -------------------------------------------------------------------------
  // Specification
  // -------------------------------------------------------------------------

  function ReadLimit(budget: usize): usize { SatAdd(budget, UTF8_MAX_SCALAR_BYTES - 1) }

  /** The bytes that the bounded read sees. */
  function BytesRead(file: seq<byte>, budget: usize): seq<byte> {
    file[..Min(ReadLimit(budget), |file|)]
  }

  predicate HasNulInProbe(bytes: seq<byte>) {
    exists k :: 0 <= k < Min(CONTENT_PROBE_BYTES, |bytes|) && bytes[k] == 0
  }

  /** What was read is acceptable text: well formed when the whole file was read, otherwise the
      beginning of some well-formed text. */
  ghost predicate IsAcceptable(file: seq<byte>, budget: usize) {
    var bytes := BytesRead(file, budget);
    && !HasNulInProbe(bytes)
    && (bytes == [] || budget == 0 || WellFormed(bytes) || (|bytes| < |file| && IsBeginning(bytes)))
  }

  /** `n` is the length of the longest well-formed prefix of the file with at most `budget` bytes. */
  ghost predicate IsLongestPrefix(file: seq<byte>, budget: nat, n: nat) {
    && n <= budget && n <= |file| && WellFormed(file[..n])
    && forall m: nat :: n < m <= budget && m <= |file| ==> !WellFormed(file[..m])
  }

  function AlignedLength(file: seq<byte>, budget: nat): (n: nat)
    ensures n <= |file|
  {
    var valid := ValidUpTo(file);
    Floor(file[..valid], Min(valid, budget))
  }

  lemma AlignedLengthIsLongest(file: seq<byte>, budget: nat)
    ensures IsLongestPrefix(file, budget, AlignedLength(file, budget))
  {
    hide WellFormed, IsCharBoundary;
    var valid := ValidUpTo(file);
    var text := file[..valid];
    ValidUpToStops(file);
    var n := AlignedLength(file, budget);
    BoundarySplits(text, n);
    assert text[..n] == file[..n];
    forall m: nat | n < m <= budget && m <= |file|
      ensures !WellFormed(file[..m])
    {
      if WellFormed(file[..m]) {
        ValidUpToIsLongest(file, m);
        assert text[..m] == file[..m];
        BoundarySplits(text, m);
      }
    }
  }

  lemma LongestIsUnique(file: seq<byte>, budget: nat, m: nat, n: nat)
    requires IsLongestPrefix(file, budget, m) && IsLongestPrefix(file, budget, n)
    ensures m == n
  {
    hide WellFormed;
  }

  // -------------------------------------------------------------------------
  // The read
  // -------------------------------------------------------------------------

  /** `Some` of the recovered prefix, or `None` for bytes that cannot be text. */
  function DecodeBoundedUtf8Prefix(bytes: seq<byte>, budget: nat, readTruncated: bool): Option<seq<byte>> {
    if bytes == [] || budget == 0 then Some([])
    else match FromUtf8(bytes)
      case Valid => Some(bytes[..Floor(bytes, Min(|bytes|, budget))])
      case Invalid(validUpTo, inputEnded) =>
        if inputEnded && readTruncated then
          var valid := bytes[..validUpTo];
          Some(valid[..Floor(valid, Min(|valid|, budget))])
        else None
  }

  /** The same file length decides `truncated` that bounded the read. */
  method ReadContentPrefixWithBudget(file: FileBytes, budget: usize) returns (plan: ContentReadPlan)
    ensures plan == ReadPlan(file, budget)
  {
    var bytes := file[..Min(SatAdd(budget, UTF8_MAX_SCALAR_BYTES - 1), |file|)];
    if exists k :: 0 <= k < Min(CONTENT_PROBE_BYTES, |bytes|) && bytes[k] == 0 {
      return ContentReadPlan(None, false, |file| > |bytes|, 0, budget);
    }

    var readTruncated := |file| > |bytes|;
    match DecodeBoundedUtf8Prefix(bytes, budget, readTruncated)
    case None =>
      return ContentReadPlan(None, false, readTruncated, 0, budget);
    case Some(content) =>
      var indexed := |content|;
      plan := ContentReadPlan(
        if content == [] then None else Some(content), indexed > 0, indexed < |file|, indexed, budget);
  }

  function ReadPlan(file: seq<byte>, budget: usize): ContentReadPlan {
    var bytes := BytesRead(file, budget);
    if HasNulInProbe(bytes) then ContentReadPlan(None, false, |file| > |bytes|, 0, budget)
    else match DecodeBoundedUtf8Prefix(bytes, budget, |file| > |bytes|)
      case None => ContentReadPlan(None, false, |file| > |bytes|, 0, budget)
      case Some(content) =>
        ContentReadPlan(if content == [] then None else Some(content),
                        |content| > 0, |content| < |file|, |content|, budget)
  }

  // -------------------------------------------------------------------------
  // Refinement
  // -------------------------------------------------------------------------

  lemma DecodeMeetsSpec(file: seq<byte>, budget: usize)
    requires !HasNulInProbe(BytesRead(file, budget))
    ensures var bytes := BytesRead(file, budget);
            var decoded := DecodeBoundedUtf8Prefix(bytes, budget, |file| > |bytes|);
            && (decoded.Some? <==> IsAcceptable(file, budget))
            && (decoded.Some? ==> decoded.value == bytes[..AlignedLength(bytes, budget)])
  {
    hide WellFormed, IsCharBoundary, HasNulInProbe, IsBeginning, IsCutScalar, StartsWithScalar;
    var bytes := BytesRead(file, budget);
    DecodedMeaning(bytes);
    ValidUpToWhole(bytes);
    var valid := bytes[..ValidUpTo(bytes)];
    assert ValidUpTo(bytes) == |bytes| ==> valid == bytes;
  }

  lemma PrefixOfRead(file: seq<byte>, budget: usize, m: nat)
    requires m <= budget && m <= |file|
    ensures m <= |BytesRead(file, budget)| && BytesRead(file, budget)[..m] == file[..m]
  {
  }

  /** Any file, any budget: content comes back exactly when the bytes read are acceptable text with a
      non-empty aligned prefix, and it is then the longest well-formed prefix within the budget. */
  lemma ReadRefinesLongestPrefix(file: seq<byte>, budget: usize)
    requires |file| <= ISIZE_MAX
    ensures var plan := ReadPlan(file, budget);
            var n := AlignedLength(file, budget);
            && IsLongestPrefix(file, budget, n)
            && (plan.content.Some? <==> IsAcceptable(file, budget) && n > 0)
            && (plan.content.Some? ==> plan.content.value == file[..n])
            && (plan.contentUtf8 <==> plan.content.Some?)
            && plan.contentBytesIndexed == (if plan.content.Some? then n else 0)
            && (plan.contentTruncated <==>
                  |file| > if IsAcceptable(file, budget) then plan.contentBytesIndexed else budget + 3)
            && plan.contentByteBudget == budget
  {
    hide WellFormed, IsCharBoundary, HasNulInProbe, IsBeginning, FromUtf8;
    var bytes := BytesRead(file, budget);
    var n := AlignedLength(bytes, budget);
    AlignedLengthIsLongest(file, budget);
    AlignedLengthIsLongest(bytes, budget);
    assert IsLongestPrefix(file, budget, n) by {
      PrefixOfRead(file, budget, n);
      forall m: nat | n < m <= budget && m <= |file|
        ensures !WellFormed(file[..m])
      {
        PrefixOfRead(file, budget, m);
      }
    }
    LongestIsUnique(file, budget, n, AlignedLength(file, budget));
    PrefixOfRead(file, budget, n);
    if !HasNulInProbe(bytes) { DecodeMeetsSpec(file, budget); }
  }

  /** For a well-formed file with no NUL in the probed bytes, the bounded read gives the same prefix as
      decoding the whole file and rounding the budget down to a scalar boundary. */
  lemma BoundedReadRefinesWholeFile(file: seq<byte>, budget: usize)
    requires |file| <= ISIZE_MAX && WellFormed(file)
    requires !HasNulInProbe(BytesRead(file, budget))
    ensures var n := Floor(file, Min(budget, |file|));
            ReadPlan(file, budget)
            == ContentReadPlan(if n == 0 then None else Some(file[..n]), n > 0, n < |file|, n, budget)
  {
    hide WellFormed, IsCharBoundary, HasNulInProbe, IsBeginning, DecodeBoundedUtf8Prefix;
    ValidUpToWhole(file);
    assert file[..|file|] == file;
    ReadRefinesLongestPrefix(file, budget);
    WellFormedIsBeginning(file);
    BeginningOfBeginning(file, |BytesRead(file, budget)|);
  }

  /** No zero byte among the first 8192 of the bytes that are read. */
  predicate NoEarlyZero(file: seq<byte>, budget: usize) {
    forall k :: 0 <= k < 8192 && k < budget + 3 && k < |file| ==> file[k] != 0
  }

  /** A file with an early zero byte is refused. */
  lemma EarlyZeroIsRefused(file: FileBytes, budget: usize)
    requires budget + 3 <= USIZE_MAX
    ensures !NoEarlyZero(file, budget) ==> ReadPlan(file, budget).content.None?
  {
    var bytes := BytesRead(file, budget);
    assert forall k :: 0 <= k < |bytes| ==> bytes[k] == file[k];
    hide DecodeBoundedUtf8Prefix;
  }

  /** Any other file that encodes scalar values is read as the longest run of whole scalars within the
      budget. */
  lemma EncodedTextIsRead(vs: seq<Scalar>, budget: usize) returns (n: nat)
    requires |EncodeAll(vs)| <= ISIZE_MAX && NoEarlyZero(EncodeAll(vs), budget)
    ensures n <= |vs| && |EncodeAll(vs[..n])| <= budget && (n < |vs| ==> |EncodeAll(vs[..n + 1])| > budget)
    ensures ReadPlan(EncodeAll(vs), budget)
         == ContentReadPlan(if n == 0 then None else Some(EncodeAll(vs[..n])), n > 0, n < |vs|,
                            |EncodeAll(vs[..n])|, budget)
  {
    hide WellFormed, Encode, EncodeAll, ReadPlan, IsCharBoundary;
    var file := EncodeAll(vs);
    var r := Floor(file, Min(budget, |file|));
    EncodingsAreWellFormed(vs);
    BoundedReadRefinesWholeFile(file, budget);
    BoundariesAreBetweenScalars(vs, r);
    n :| n <= |vs| && r == |EncodeAll(vs[..n])|;
    EncodeSplit(vs, n);
    assert file[..r] == EncodeAll(vs[..n]);
    if n < |vs| {
      OneMoreScalar(vs, n);
      BoundariesAreBetweenScalars(vs, |EncodeAll(vs[..n + 1])|);
    } else {
      assert vs[..n] == vs;
    }
    if n > 0 { OneMoreScalar(vs, n - 1); } else { NothingEncodes(vs); }
  }

  /** In particular it is returned whole when it fits. */
  lemma FittingTextIsReadWhole(vs: seq<Scalar>, budget: usize)
    requires vs != [] && |EncodeAll(vs)| <= Min(budget, ISIZE_MAX) && NoEarlyZero(EncodeAll(vs), budget)
    ensures ReadPlan(EncodeAll(vs), budget)
         == ContentReadPlan(Some(EncodeAll(vs)), true, false, |EncodeAll(vs)|, budget)
  {
    hide Encode, EncodeAll, ReadPlan;
    var n := EncodedTextIsRead(vs, budget);
    if n < |vs| { OneMoreScalar(vs, n); }
    assert vs[..|vs|] == vs;
  }

  /** Bytes past the budget and the three that complete a scalar do not matter, as long as there are any. */
  lemma RestIsNotRead(file: FileBytes, other: FileBytes, budget: usize)
    requires budget + 3 < |file| && budget + 3 < |other| && file[..budget + 3] == other[..budget + 3]
    ensures ReadPlan(file, budget) == ReadPlan(other, budget)
  {
    hide DecodeBoundedUtf8Prefix, HasNulInProbe;
    assert BytesRead(file, budget) == BytesRead(other, budget);
    DecodedIsShort(BytesRead(file, budget), budget, true);
  }

  lemma DecodedIsShort(bytes: seq<byte>, budget: nat, readTruncated: bool)
    ensures var decoded := DecodeBoundedUtf8Prefix(bytes, budget, readTruncated);
            decoded.Some? ==> |decoded.value| <= |bytes|
  {
  }
}
