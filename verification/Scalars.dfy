/** UTF-8 from the other side: the encoding of scalar values by division and remainder (RFC 3629,
    section 3). Well-formed bytes are exactly the encodings of sequences of scalar values. */
module Scalars {
  import opened Prelude
  import opened Utf8

  /** A code point that is not a surrogate. */
  type Scalar = v: int | 0 <= v <= 0x10FFFF && !(0xD800 <= v <= 0xDFFF)

  /** The last six bits, as a tail byte. */
  function Tail(v: nat): byte { 0x80 + v % 64 }

  function Encode(v: Scalar): (bytes: seq<byte>)
    ensures 1 <= |bytes| <= 4
  {
    if v < 0x80 then [v]
    else if v < 0x800 then [0xC0 + v / 64, Tail(v)]
    else if v < 0x1_0000 then [0xE0 + v / 64 / 64, Tail(v / 64), Tail(v)]
    else [0xF0 + v / 64 / 64 / 64, Tail(v / 64 / 64), Tail(v / 64), Tail(v)]
  }

  function EncodeAll(vs: seq<Scalar>): seq<byte> {
    if vs == [] then [] else Encode(vs[0]) + EncodeAll(vs[1..])
  }

  // -------------------------------------------------------------------------
  // Encodings are accepted
  // -------------------------------------------------------------------------

  lemma EncodingIsScalar(v: Scalar)
    ensures StartsWithScalar(Encode(v)) && Width(Encode(v)[0]) == |Encode(v)|
  {
  }

  lemma EncodingStarts(v: Scalar, rest: seq<byte>)
    ensures StartsWithScalar(Encode(v) + rest) && Width((Encode(v) + rest)[0]) == |Encode(v)|
    ensures (Encode(v) + rest)[|Encode(v)|..] == rest
  {
    EncodingIsScalar(v);
    hide Encode;
  }

  lemma {:induction false} EncodingsAreWellFormed(vs: seq<Scalar>)
    ensures WellFormed(EncodeAll(vs))
  {
    hide Encode, StartsWithScalar, Width;
    if vs != [] {
      EncodingStarts(vs[0], EncodeAll(vs[1..]));
      EncodingsAreWellFormed(vs[1..]);
    }
  }

  // -------------------------------------------------------------------------
  // What is accepted is an encoding
  // -------------------------------------------------------------------------

  function Join(high: nat, tail: byte): nat
    requires IsContinuation(tail)
  {
    high * 64 + (tail - 0x80)
  }

  lemma JoinSplits(high: nat, tail: byte)
    requires IsContinuation(tail)
    ensures Join(high, tail) / 64 == high && Tail(Join(high, tail)) == tail
  {
  }

  lemma ScalarIsEncoded(s: seq<byte>) returns (v: Scalar)
    requires StartsWithScalar(s)
    ensures Encode(v) == s[..Width(s[0])]
  {
    if Width(s[0]) == 1 {
      v := s[0];
    } else if Width(s[0]) == 2 {
      v := Join(s[0] - 0xC0, s[1]);
      JoinSplits(s[0] - 0xC0, s[1]);
    } else if Width(s[0]) == 3 {
      v := Join(Join(s[0] - 0xE0, s[1]), s[2]);
      JoinSplits(s[0] - 0xE0, s[1]);
      JoinSplits(Join(s[0] - 0xE0, s[1]), s[2]);
    } else {
      v := Join(Join(Join(s[0] - 0xF0, s[1]), s[2]), s[3]);
      JoinSplits(s[0] - 0xF0, s[1]);
      JoinSplits(Join(s[0] - 0xF0, s[1]), s[2]);
      JoinSplits(Join(Join(s[0] - 0xF0, s[1]), s[2]), s[3]);
    }
  }

  lemma {:induction false} WellFormedIsEncoded(s: seq<byte>) returns (vs: seq<Scalar>)
    requires WellFormed(s)
    ensures EncodeAll(vs) == s
  {
    if s == [] {
      vs := [];
    } else {
      var w := Width(s[0]);
      var v := ScalarIsEncoded(s);
      hide Encode, StartsWithScalar, Width;
      var rest := WellFormedIsEncoded(s[w..]);
      vs := [v] + rest;
      assert vs[1..] == rest;
      assert s == s[..w] + s[w..];
    }
  }

  /** The encoded texts are exactly the well-formed ones. */
  lemma WellFormedIff(s: seq<byte>)
    ensures WellFormed(s) <==> exists vs: seq<Scalar> :: EncodeAll(vs) == s
  {
    hide WellFormed, EncodeAll;
    if WellFormed(s) {
      var vs := WellFormedIsEncoded(s);
    }
    forall vs: seq<Scalar> | EncodeAll(vs) == s
      ensures WellFormed(s)
    {
      EncodingsAreWellFormed(vs);
    }
  }

  // -------------------------------------------------------------------------
  // Places in an encoded text
  // -------------------------------------------------------------------------

  lemma {:induction false} EncodeAppend(x: seq<Scalar>, y: seq<Scalar>)
    ensures EncodeAll(x + y) == EncodeAll(x) + EncodeAll(y)
  {
    hide Encode;
    if x == [] {
      assert x + y == y;
    } else {
      assert (x + y)[1..] == x[1..] + y;
      EncodeAppend(x[1..], y);
    }
  }

  lemma NothingEncodes(vs: seq<Scalar>)
    ensures EncodeAll(vs[..0]) == []
  {
  }

  lemma EncodeOne(v: Scalar)
    ensures EncodeAll([v]) == Encode(v)
  {
    assert [v][1..] == [];
  }

  lemma EncodeSplit(vs: seq<Scalar>, n: nat)
    requires n <= |vs|
    ensures EncodeAll(vs) == EncodeAll(vs[..n]) + EncodeAll(vs[n..])
  {
    hide Encode, EncodeAll;
    assert vs == vs[..n] + vs[n..];
    EncodeAppend(vs[..n], vs[n..]);
  }

  lemma OneMoreScalar(vs: seq<Scalar>, n: nat)
    requires n < |vs|
    ensures EncodeAll(vs[..n + 1]) == EncodeAll(vs[..n]) + Encode(vs[n])
    ensures |EncodeAll(vs[..n + 1])| <= |EncodeAll(vs)|
  {
    hide Encode, EncodeAll;
    var more := vs[..n + 1];
    EncodeSplit(vs, n + 1);
    EncodeSplit(more, n);
    EncodeOne(vs[n]);
    assert more[..n] == vs[..n] && more[n..] == [vs[n]];
  }

  /** The boundaries of an encoded text are the places between its scalars. */
  lemma BoundariesAreBetweenScalars(vs: seq<Scalar>, i: nat)
    requires i <= |EncodeAll(vs)|
    ensures IsCharBoundary(EncodeAll(vs), i) <==>
            exists n: nat :: n <= |vs| && i == |EncodeAll(vs[..n])|
  {
    hide Encode, EncodeAll, WellFormed, IsCharBoundary;
    EncodingsAreWellFormed(vs);
    if IsCharBoundary(EncodeAll(vs), i) {
      BoundaryIsPlace(vs, i);
    }
    forall n: nat | n <= |vs| && i == |EncodeAll(vs[..n])|
      ensures IsCharBoundary(EncodeAll(vs), i)
    {
      EncodeSplit(vs, n);
      EncodingsAreWellFormed(vs[..n]);
      EncodingsAreWellFormed(vs[n..]);
      assert EncodeAll(vs)[..i] == EncodeAll(vs[..n]) && EncodeAll(vs)[i..] == EncodeAll(vs[n..]);
      BoundarySplits(EncodeAll(vs), i);
    }
  }

  lemma {:induction false} BoundaryIsPlace(vs: seq<Scalar>, i: nat)
    requires i <= |EncodeAll(vs)| && IsCharBoundary(EncodeAll(vs), i)
    ensures exists n: nat :: n <= |vs| && i == |EncodeAll(vs[..n])|
  {
    hide Encode, WellFormed;
    if i == 0 {
      assert vs[..0] == [];
    } else {
      var first, rest := Encode(vs[0]), EncodeAll(vs[1..]);
      EncodingsAreWellFormed(vs);
      EncodingStarts(vs[0], rest);
      if i < |first| { NoBoundaryInsideScalar(EncodeAll(vs), 0, i); }
      BoundaryIsPlace(vs[1..], i - |first|);
      var n: nat :| n <= |vs[1..]| && i - |first| == |EncodeAll(vs[1..][..n])|;
      assert vs[..n + 1][1..] == vs[1..][..n];
    }
  }

  lemma {:induction false} EncodingHasNoZero(vs: seq<Scalar>)
    requires forall k :: 0 <= k < |vs| ==> vs[k] != 0
    ensures forall k :: 0 <= k < |EncodeAll(vs)| ==> EncodeAll(vs)[k] != 0
  {
    if vs != [] { EncodingHasNoZero(vs[1..]); }
  }
}
