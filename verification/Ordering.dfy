/** Deterministic reading of `ORDER BY`: a finite set of keys listed in ascending order. */
module Ordering {

  /** Lexicographic sort key; `ORDER BY first, second, third`. */
  datatype Key = Key(first: int, second: int, third: int)

  predicate Before(x: Key, y: Key) {
    x.first < y.first || (x.first == y.first && (x.second < y.second || (x.second == y.second && x.third < y.third)))
  }

  predicate AtMost(x: Key, y: Key) { x == y || Before(x, y) }

  ghost predicate IsLeast(s: set<Key>, x: Key) {
    x in s && forall y :: y in s ==> AtMost(x, y)
  }

  lemma LeastExists(s: set<Key>)
    requires s != {}
    ensures exists x :: IsLeast(s, x)
  {
    var y :| y in s;
    if s == {y} {
      assert IsLeast(s, y);
    } else {
      LeastExists(s - {y});
      var x :| IsLeast(s - {y}, x);
      var least := if Before(y, x) then y else x;
      forall z | z in s
        ensures AtMost(least, z)
      {
        assert z == y || z in s - {y};
      }
      assert IsLeast(s, least);
    }
  }

  function Least(s: set<Key>): (x: Key)
    requires s != {}
    ensures x in s
    ensures forall y :: y in s ==> AtMost(x, y)
  {
    LeastExists(s);
    var x :| x in s && forall y :: y in s ==> AtMost(x, y);
    x
  }

  function Sorted(s: set<Key>): seq<Key> {
    if s == {} then [] else [Least(s)] + Sorted(s - {Least(s)})
  }

  /** Every element once, in ascending order. */
  lemma {:induction false} SortedIsOrdered(s: set<Key>)
    ensures forall x :: x in Sorted(s) <==> x in s
    ensures forall j, k :: 0 <= j < k < |Sorted(s)| ==> Before(Sorted(s)[j], Sorted(s)[k])
    ensures |Sorted(s)| == |s|
  {
    if s != {} {
      var x := Least(s);
      var rest := Sorted(s - {x});
      SortedIsOrdered(s - {x});
      forall k | 0 <= k < |rest|
        ensures Before(x, rest[k])
      {
        assert rest[k] in rest;
      }
    }
  }
}
