/** `str::trim` on scalar values: the byte tests find exactly the Unicode `White_Space` scalars. */
module WhiteSpace {
  import opened Prelude
  import opened Utf8
  import opened Scalars
  import opened Lines

  /** The code points with the property `White_Space`. */
  predicate IsWhiteSpace(v: Scalar) {
    || 0x09 <= v <= 0x0D || v == 0x20 || v == 0x85 || v == 0xA0 || v == 0x1680
    || 0x2000 <= v <= 0x200A || v == 0x2028 || v == 0x2029 || v == 0x202F || v == 0x205F || v == 0x3000
  }

  lemma WhiteSpaceShift(s: seq<byte>, i: nat, end: nat)
    requires i <= end <= |s|
    ensures WhiteSpaceAt(s, i, end) == WhiteSpaceAt(s[i..end], 0, end - i)
  {
  }

  lemma WhiteSpaceInFront(v: Scalar, rest: seq<byte>)
    ensures WhiteSpaceAt(Encode(v) + rest, 0, |Encode(v) + rest|) == if IsWhiteSpace(v) then |Encode(v)| else 0
  {
  }

  lemma WhiteSpaceAtEnd(front: seq<byte>, v: Scalar, start: nat)
    requires start <= |front|
    ensures var s := front + Encode(v);
            WhiteSpaceBefore(s, start, |s|) == if IsWhiteSpace(v) then |Encode(v)| else 0
  {
  }

  lemma PlaceOf(vs: seq<Scalar>, k: nat)
    requires k < |vs|
    ensures var s, i := EncodeAll(vs), |EncodeAll(vs[..k])|;
            && i + |Encode(vs[k])| == |EncodeAll(vs[..k + 1])| <= |s|
            && s[i..] == Encode(vs[k]) + EncodeAll(vs[k + 1..])
            && s[..i + |Encode(vs[k])|] == s[..i] + Encode(vs[k])
            && s[..i] == EncodeAll(vs[..k])
  {
    hide Encode, EncodeAll;
    OneMoreScalar(vs, k);
    EncodeSplit(vs, k);
    EncodeSplit(vs, k + 1);
    var i, w := |EncodeAll(vs[..k])|, |Encode(vs[k])|;
    assert EncodeAll(vs) == EncodeAll(vs[..k]) + (Encode(vs[k]) + EncodeAll(vs[k + 1..]));
    assert EncodeAll(vs)[..i + w] == EncodeAll(vs[..k + 1]);
  }

  lemma EndPlace(vs: seq<Scalar>)
    ensures |EncodeAll(vs[..|vs|])| == |EncodeAll(vs)|
  {
    assert vs[..|vs|] == vs;
  }

  lemma {:induction false} TrimStartIs(vs: seq<Scalar>, k: nat) returns (a: nat)
    requires k <= |vs|
    ensures |EncodeAll(vs[..k])| <= |EncodeAll(vs)|
    ensures k <= a <= |vs| && TrimStart(EncodeAll(vs), |EncodeAll(vs[..k])|) == |EncodeAll(vs[..a])|
    ensures (forall j :: k <= j < a ==> IsWhiteSpace(vs[j])) && (a < |vs| ==> !IsWhiteSpace(vs[a]))
    decreases |vs| - k
  {
    hide Encode, EncodeAll, WhiteSpaceAt, IsWhiteSpace;
    var s, i := EncodeAll(vs), |EncodeAll(vs[..k])|;
    if k == |vs| {
      EndPlace(vs);
      a := k;
      NoneAtEnd(s);
    } else {
      PlaceOf(vs, k);
      WhiteSpaceShift(s, i, |s|);
      assert s[i..|s|] == s[i..];
      WhiteSpaceInFront(vs[k], EncodeAll(vs[k + 1..]));
      if IsWhiteSpace(vs[k]) {
        a := TrimStartIs(vs, k + 1);
      } else {
        a := k;
      }
    }
  }

  lemma NoneAtEnd(s: seq<byte>)
    ensures WhiteSpaceAt(s, |s|, |s|) == 0
  {
  }

  lemma BeforeShift(s: seq<byte>, start: nat, i: nat)
    requires start <= i <= |s|
    ensures WhiteSpaceBefore(s, start, i) == WhiteSpaceBefore(s[..i], start, i)
  {
  }

  lemma PlacesGrow(vs: seq<Scalar>, a: nat, b: nat)
    requires a <= b <= |vs|
    ensures |EncodeAll(vs[..a])| <= |EncodeAll(vs[..b])| <= |EncodeAll(vs)|
    ensures EncodeAll(vs)[|EncodeAll(vs[..a])|..|EncodeAll(vs[..b])|] == EncodeAll(vs[a..b])
  {
    hide Encode, EncodeAll;
    EncodeSplit(vs, b);
    EncodeSplit(vs[..b], a);
    assert vs[..b][..a] == vs[..a] && vs[..b][a..] == vs[a..b];
  }

  lemma {:induction false} TrimEndIs(vs: seq<Scalar>, a: nat, k: nat) returns (b: nat)
    requires a <= k <= |vs|
    ensures |EncodeAll(vs[..a])| <= |EncodeAll(vs[..k])| <= |EncodeAll(vs)|
    ensures a <= b <= k
    ensures TrimEnd(EncodeAll(vs), |EncodeAll(vs[..a])|, |EncodeAll(vs[..k])|) == |EncodeAll(vs[..b])|
    ensures (forall j :: b <= j < k ==> IsWhiteSpace(vs[j])) && (a < b ==> !IsWhiteSpace(vs[b - 1]))
    decreases k
  {
    hide Encode, EncodeAll, WhiteSpaceBefore, IsWhiteSpace;
    var s, start, i := EncodeAll(vs), |EncodeAll(vs[..a])|, |EncodeAll(vs[..k])|;
    PlacesGrow(vs, a, k);
    if a == k {
      b := k;
      NothingBefore(s, start);
    } else {
      PlacesGrow(vs, a, k - 1);
      PlaceOf(vs, k - 1);
      BeforeShift(s, start, i);
      WhiteSpaceAtEnd(EncodeAll(vs[..k - 1]), vs[k - 1], start);
      if IsWhiteSpace(vs[k - 1]) {
        b := TrimEndIs(vs, a, k - 1);
      } else {
        b := k;
      }
    }
  }

  lemma NothingBefore(s: seq<byte>, i: nat)
    requires i <= |s|
    ensures WhiteSpaceBefore(s, i, i) == 0
  {
  }

  /** Trimming the bytes of a text drops exactly the white space at its two ends. */
  lemma TrimIsByScalars(vs: seq<Scalar>) returns (a: nat, b: nat)
    ensures a <= b <= |vs| && Trim(EncodeAll(vs)) == EncodeAll(vs[a..b])
    ensures forall j :: 0 <= j < a || b <= j < |vs| ==> IsWhiteSpace(vs[j])
    ensures a < b ==> !IsWhiteSpace(vs[a]) && !IsWhiteSpace(vs[b - 1])
  {
    hide Encode, EncodeAll, TrimStart, TrimEnd, IsWhiteSpace;
    NothingEncodes(vs);
    EndPlace(vs);
    a := TrimStartIs(vs, 0);
    b := TrimEndIs(vs, a, |vs|);
    PlacesGrow(vs, a, b);
  }
}
