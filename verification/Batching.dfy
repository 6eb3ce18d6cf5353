/** Sending embedding inputs to the provider in batches, and reading the replies back in order. */
module Batching {
  import opened Prelude
  import opened Utf8
  import opened EmbedJob

  type Text = seq<byte>

  datatype Item = Item(index: nat, embedding: Vector)

  datatype EmbedError = Retryable(retryAfterSecs: nat) | Refused

  /** One decoded reply, or the classified failure of the request. */
  datatype Reply = Data(items: seq<Item>) | Failed(error: EmbedError)

  // -------------------------------------------------------------------------
  // One reply
  // -------------------------------------------------------------------------

  predicate SortedByIndex(items: seq<Item>) {
    forall j, k :: 0 <= j < k < |items| ==> items[j].index <= items[k].index
  }

  /** Inserts behind every item of the same index, as a stable sort does. */
  function InsertItem(items: seq<Item>, item: Item): seq<Item> {
    if items == [] || items[|items| - 1].index <= item.index then items + [item]
    else InsertItem(items[..|items| - 1], item) + [items[|items| - 1]]
  }

  /** `sort_by_key`. */
  function SortByIndex(items: seq<Item>): seq<Item> {
    if items == [] then [] else InsertItem(SortByIndex(items[..|items| - 1]), items[|items| - 1])
  }

  lemma {:induction false} InsertItemKeeps(items: seq<Item>, item: Item)
    ensures multiset(InsertItem(items, item)) == multiset(items) + multiset{item}
    ensures |InsertItem(items, item)| == |items| + 1
  {
    if items != [] && items[|items| - 1].index > item.index {
      InsertItemKeeps(items[..|items| - 1], item);
      assert items == items[..|items| - 1] + [items[|items| - 1]];
    }
  }

  predicate AllAtMost(items: seq<Item>, index: nat) { forall k :: 0 <= k < |items| ==> items[k].index <= index }

  lemma {:induction false} InsertItemSorts(items: seq<Item>, item: Item)
    requires SortedByIndex(items)
    ensures SortedByIndex(InsertItem(items, item))
    ensures forall bound :: AllAtMost(items, bound) && item.index <= bound ==> AllAtMost(InsertItem(items, item), bound)
  {
    if items == [] || items[|items| - 1].index <= item.index {
      assert items != [] ==> AllAtMost(items, items[|items| - 1].index);
    } else {
      var init, last := items[..|items| - 1], items[|items| - 1];
      InsertItemSorts(init, item);
      assert AllAtMost(init, last.index);
      var r := InsertItem(init, item);
      hide InsertItem;
      forall bound | AllAtMost(items, bound) && item.index <= bound
        ensures AllAtMost(r + [last], bound)
      {
        assert forall k :: 0 <= k < |init| ==> init[k] == items[k];
        assert AllAtMost(init, bound) && items[|items| - 1] == last;
      }
    }
  }

  /** A sorted permutation. */
  lemma {:induction false} SortByIndexSorts(items: seq<Item>)
    ensures SortedByIndex(SortByIndex(items))
    ensures multiset(SortByIndex(items)) == multiset(items)
    ensures |SortByIndex(items)| == |items|
  {
    if items != [] {
      var init, last := items[..|items| - 1], items[|items| - 1];
      assert items == init + [last];
      SortByIndexSorts(init);
      InsertItemSorts(SortByIndex(init), last);
      InsertItemKeeps(SortByIndex(init), last);
      hide InsertItem, SortedByIndex, AllAtMost;
    }
  }

  lemma SameSize(x: seq<Item>, y: seq<Item>)
    requires multiset(x) == multiset(y)
    ensures |x| == |y|
  {
    assert |multiset(x)| == |x| && |multiset(y)| == |y|;
  }

  function ItemVectors(items: seq<Item>): seq<Vector> {
    seq(|items|, k requires 0 <= k < |items| => items[k].embedding)
  }

  function ParsedVectors(items: seq<Item>, dimensions: nat, expected: nat): Result<seq<Vector>, EmbedError> {
    if |items| != expected || exists k :: 0 <= k < |items| && |items[k].embedding| != dimensions then Failure(Refused)
    else Success(ItemVectors(SortByIndex(items)))
  }

  method ParseResponseVectors(data: seq<Item>, dimensions: nat, expected: nat)
    returns (r: Result<seq<Vector>, EmbedError>)
    ensures r == ParsedVectors(data, dimensions, expected)
  {
    var items := SortByIndex(data);
    SortByIndexSorts(data);
    hide SortByIndex, SortedByIndex;
    if |items| != expected {
      return Failure(Refused);
    }
    var vectors: seq<Vector> := [];
    for k := 0 to |items|
      invariant vectors == ItemVectors(items[..k])
      invariant forall j :: 0 <= j < k ==> |items[j].embedding| == dimensions
    {
      if |items[k].embedding| != dimensions {
        MemberOfSorted(data, items[k]);
        return Failure(Refused);
      }
      vectors := vectors + [items[k].embedding];
    }
    assert items[..|items|] == items;
    forall j | 0 <= j < |data|
      ensures |data[j].embedding| == dimensions
    {
      MemberOfSorted(data, data[j]);
    }
    return Success(vectors);
  }

  lemma MemberOfSorted(items: seq<Item>, item: Item)
    ensures item in SortByIndex(items) <==> item in items
  {
    SortByIndexSorts(items);
    assert item in multiset(items) <==> item in items;
    assert item in multiset(SortByIndex(items)) <==> item in SortByIndex(items);
  }

  // -------------------------------------------------------------------------
  // Permuted replies
  // -------------------------------------------------------------------------

  /** The provider's model: one vector per input. */
  type Embedder = Text -> Vector

  function ExpectedItems(batch: seq<Text>, embedder: Embedder): seq<Item> {
    seq(|batch|, k requires 0 <= k < |batch| => Item(k, embedder(batch[k])))
  }

  function EmbedEach(inputs: seq<Text>, embedder: Embedder): seq<Vector> {
    seq(|inputs|, k requires 0 <= k < |inputs| => embedder(inputs[k]))
  }

  /** The reply answers every input of the batch once, in any order. */
  ghost predicate IsFaithful(reply: Reply, batch: seq<Text>, embedder: Embedder) {
    reply.Data? && multiset(reply.items) == multiset(ExpectedItems(batch, embedder))
  }

  predicate StrictByIndex(items: seq<Item>) {
    forall j, k :: 0 <= j < k < |items| ==> items[j].index < items[k].index
  }

  lemma LastIsGreatest(x: seq<Item>, y: seq<Item>)
    requires SortedByIndex(x) && StrictByIndex(y) && multiset(x) == multiset(y) && y != [] && |x| == |y|
    ensures x[|x| - 1] == y[|y| - 1]
  {
    var xl, yl := x[|x| - 1], y[|y| - 1];
    assert xl in multiset(y) && yl in multiset(x);
    var j :| 0 <= j < |y| && y[j] == xl;
    var i :| 0 <= i < |x| && x[i] == yl;
  }

  lemma DropLast(x: seq<Item>)
    requires x != []
    ensures multiset(x[..|x| - 1]) == multiset(x) - multiset{x[|x| - 1]}
  {
    assert x == x[..|x| - 1] + [x[|x| - 1]];
  }

  lemma DropLastOfBoth(x: seq<Item>, y: seq<Item>)
    requires SortedByIndex(x) && StrictByIndex(y) && multiset(x) == multiset(y) && y != [] && |x| == |y|
    ensures var n := |y| - 1;
            SortedByIndex(x[..n]) && StrictByIndex(y[..n]) && multiset(x[..n]) == multiset(y[..n]) && x[n] == y[n]
  {
    LastIsGreatest(x, y);
    DropLast(x);
    DropLast(y);
  }

  /** Sorted lists of the same items are the same list when no two items share an index. */
  lemma {:induction false} SortedIsUnique(x: seq<Item>, y: seq<Item>)
    requires SortedByIndex(x) && StrictByIndex(y) && multiset(x) == multiset(y)
    ensures x == y
    decreases |y|
  {
    SameSize(x, y);
    if y != [] {
      DropLastOfBoth(x, y);
      hide SortedByIndex, StrictByIndex;
      var n := |y| - 1;
      SortedIsUnique(x[..n], y[..n]);
      assert forall k :: 0 <= k < n ==> x[k] == x[..n][k] && y[k] == y[..n][k];
    }
  }

  lemma FaithfulReplyParses(reply: Reply, batch: seq<Text>, embedder: Embedder, dimensions: nat)
    requires IsFaithful(reply, batch, embedder) && forall text :: |embedder(text)| == dimensions
    ensures ParsedVectors(reply.items, dimensions, |batch|) == Success(EmbedEach(batch, embedder))
  {
    var items := ExpectedItems(batch, embedder);
    SortByIndexSorts(reply.items);
    SortedIsUnique(SortByIndex(reply.items), items);
    SameSize(reply.items, items);
    forall k | 0 <= k < |reply.items|
      ensures |reply.items[k].embedding| == dimensions
    {
      assert reply.items[k] in multiset(items);
    }
    assert ItemVectors(items) == EmbedEach(batch, embedder);
  }

  // -------------------------------------------------------------------------
  // Batches
  // -------------------------------------------------------------------------

  /** The reply to each request; requests are numbered, so repeated batches may differ. */
  type Provider = (nat, seq<Text>) -> Reply

  function EmbedBatch(batch: seq<Text>, k: nat, provider: Provider, dimensions: nat): Result<seq<Vector>, EmbedError> {
    match provider(k, batch)
    case Failed(error) => Failure(error)
    case Data(items) => ParsedVectors(items, dimensions, |batch|)
  }

  function Prepend(vectors: seq<Vector>, rest: Result<seq<Vector>, EmbedError>): Result<seq<Vector>, EmbedError> {
    match rest
    case Failure(error) => Failure(error)
    case Success(more) => Success(vectors + more)
  }

  lemma PrependTwice(first: seq<Vector>, second: seq<Vector>, rest: Result<seq<Vector>, EmbedError>)
    ensures Prepend(first, Prepend(second, rest)) == Prepend(first + second, rest)
    ensures Prepend([], rest) == rest
    ensures rest.Failure? ==> Prepend(first, rest) == rest
  {
    if rest.Success? {
      AppendAssociative(first, second, rest.value);
      assert [] + rest.value == rest.value;
    }
  }

  /** The batches from `start` on, or the error of the first that fails. */
  function EmbedFrom(inputs: seq<Text>, start: nat, k: nat, limit: nat, provider: Provider, dimensions: nat)
    : Result<seq<Vector>, EmbedError>
    requires limit > 0 && start <= |inputs|
    decreases |inputs| - start
  {
    if start == |inputs| then Success([])
    else
      var end := Min(start + limit, |inputs|);
      match EmbedBatch(inputs[start..end], k, provider, dimensions)
      case Failure(error) => Failure(error)
      case Success(vectors) => Prepend(vectors, EmbedFrom(inputs, end, k + 1, limit, provider, dimensions))
  }

  method EmbedHttpBatch(batch: seq<Text>, k: nat, provider: Provider, dimensions: nat)
    returns (r: Result<seq<Vector>, EmbedError>)
    ensures r == EmbedBatch(batch, k, provider, dimensions)
  {
    match provider(k, batch) {
      case Failed(error) =>
        return Failure(error);
      case Data(items) =>
        r := ParseResponseVectors(items, dimensions, |batch|);
    }
  }

  predicate IsRequest(ranges: seq<(nat, nat)>, k: nat, count: nat, limit: nat)
    requires k < |ranges|
  {
    && ranges[k].0 < count && ranges[k].1 == Min(ranges[k].0 + limit, count)
    && ranges[k].0 == if k == 0 then 0 else ranges[k - 1].1
  }

  /** Requests made so far, in order: adjacent, never over the limit, and full except at the end. */
  predicate AreRequests(ranges: seq<(nat, nat)>, count: nat, limit: nat, end: nat) {
    && (forall k :: 0 <= k < |ranges| ==> IsRequest(ranges, k, count, limit))
    && end == if ranges == [] then 0 else ranges[|ranges| - 1].1
  }

  lemma OneMoreRequest(ranges: seq<(nat, nat)>, count: nat, limit: nat, start: nat)
    requires AreRequests(ranges, count, limit, start) && start < count
    ensures AreRequests(ranges + [(start, Min(start + limit, count))], count, limit, Min(start + limit, count))
  {
    var grown := ranges + [(start, Min(start + limit, count))];
    forall k | 0 <= k < |grown|
      ensures IsRequest(grown, k, count, limit)
    {
      if k < |ranges| { assert IsRequest(ranges, k, count, limit); }
    }
  }

  lemma PrependNothing(vectors: seq<Vector>)
    ensures Prepend(vectors, Success([])) == Success(vectors)
  {
    assert vectors + [] == vectors;
  }

  /** The ranges are the requests made, one after the other; a success has covered all inputs. */
  method EmbedInputsInBatches(inputs: seq<Text>, limit: nat, provider: Provider, dimensions: nat)
    returns (r: Result<seq<Vector>, EmbedError>, ranges: seq<(nat, nat)>)
    requires inputs != [] ==> limit > 0
    ensures inputs == [] ==> r == Success([]) && ranges == []
    ensures inputs != [] ==> r == EmbedFrom(inputs, 0, 0, limit, provider, dimensions)
    ensures r.Success? ==> AreRequests(ranges, |inputs|, limit, |inputs|)
    ensures exists end :: AreRequests(ranges, |inputs|, limit, end)
  {
    hide EmbedBatch, Prepend;
    ranges := [];
    if inputs == [] {
      assert AreRequests(ranges, 0, limit, 0);
      return Success([]), [];
    }
    var vectors: seq<Vector> := [];
    var start := 0;
    PrependTwice([], [], EmbedFrom(inputs, 0, 0, limit, provider, dimensions));
    while start < |inputs|
      invariant 0 <= start <= |inputs|
      invariant AreRequests(ranges, |inputs|, limit, start)
      invariant EmbedFrom(inputs, 0, 0, limit, provider, dimensions)
             == Prepend(vectors, EmbedFrom(inputs, start, |ranges|, limit, provider, dimensions))
      decreases |inputs| - start
    {
      var end := Min(start + limit, |inputs|);
      var batch := inputs[start..end];
      var reply := EmbedHttpBatch(batch, |ranges|, provider, dimensions);
      OneMoreRequest(ranges, |inputs|, limit, start);
      PrependTwice(vectors, [], EmbedFrom(inputs, start, |ranges|, limit, provider, dimensions));
      hide AreRequests;
      ranges := ranges + [(start, end)];
      if reply.Failure? {
        return Failure(reply.error), ranges;
      }
      if |reply.value| != |batch| {
        RepliesAreFull(batch, |ranges| - 1, provider, dimensions);
        assert false;
      }
      PrependTwice(vectors, reply.value, EmbedFrom(inputs, end, |ranges|, limit, provider, dimensions));
      vectors := vectors + reply.value;
      start := end;
    }
    PrependNothing(vectors);
    return Success(vectors), ranges;
  }

  /** The parser already refuses a short reply, so the caller's own count check never fires. */
  lemma RepliesAreFull(batch: seq<Text>, k: nat, provider: Provider, dimensions: nat)
    ensures var r := EmbedBatch(batch, k, provider, dimensions);
            r.Success? ==> |r.value| == |batch| && forall j :: 0 <= j < |batch| ==> |r.value[j]| == dimensions
  {
    match provider(k, batch)
    case Failed(_) =>
    case Data(items) =>
      SortByIndexSorts(items);
      if ParsedVectors(items, dimensions, |batch|).Success? {
        forall j | 0 <= j < |items|
          ensures |SortByIndex(items)[j].embedding| == dimensions
        {
          MemberOfSorted(items, SortByIndex(items)[j]);
        }
      }
  }

  // -------------------------------------------------------------------------
  // Batching is invisible
  // -------------------------------------------------------------------------

  ghost predicate AnswersAll(provider: Provider, embedder: Embedder) {
    forall k, batch :: IsFaithful(provider(k, batch), batch, embedder)
  }

  /** Whatever the limit and however each reply is permuted, the result is the embedding of each input
      in order. */
  lemma {:induction false} BatchingIsInvisible(inputs: seq<Text>, start: nat, k: nat, limit: nat, provider: Provider,
                                               embedder: Embedder, dimensions: nat)
    requires limit > 0 && start <= |inputs|
    requires AnswersAll(provider, embedder) && forall text :: |embedder(text)| == dimensions
    ensures EmbedFrom(inputs, start, k, limit, provider, dimensions) == Success(EmbedEach(inputs[start..], embedder))
    decreases |inputs| - start
  {
    hide ParsedVectors, IsFaithful;
    if start < |inputs| {
      var end := Min(start + limit, |inputs|);
      var batch := inputs[start..end];
      assert IsFaithful(provider(k, batch), batch, embedder);
      FaithfulBatch(provider(k, batch), batch, embedder, dimensions);
      BatchingIsInvisible(inputs, end, k + 1, limit, provider, embedder, dimensions);
      assert EmbedEach(inputs[start..], embedder) == EmbedEach(batch, embedder) + EmbedEach(inputs[end..], embedder);
    }
  }

  lemma FaithfulBatch(reply: Reply, batch: seq<Text>, embedder: Embedder, dimensions: nat)
    requires IsFaithful(reply, batch, embedder) && forall text :: |embedder(text)| == dimensions
    ensures reply.Data? && ParsedVectors(reply.items, dimensions, |batch|) == Success(EmbedEach(batch, embedder))
  {
    FaithfulReplyParses(reply, batch, embedder, dimensions);
  }

  /** In particular the limit does not matter. */
  lemma LimitIsIrrelevant(inputs: seq<Text>, x: nat, y: nat, provider: Provider, embedder: Embedder, dimensions: nat)
    requires x > 0 && y > 0 && AnswersAll(provider, embedder) && forall text :: |embedder(text)| == dimensions
    ensures EmbedFrom(inputs, 0, 0, x, provider, dimensions) == EmbedFrom(inputs, 0, 0, y, provider, dimensions)
  {
    BatchingIsInvisible(inputs, 0, 0, x, provider, embedder, dimensions);
    BatchingIsInvisible(inputs, 0, 0, y, provider, embedder, dimensions);
  }
}
