/** Cutting the URL list into batches: the nested index loops shared by
    Util.partition and Svc.partition. */
module Batches {

  /** The batches laid end to end. */
  function Flatten<T>(batches: seq<seq<T>>): seq<T>
  {
    if batches == [] then [] else Flatten(batches[..|batches| - 1]) + batches[|batches| - 1]
  }

  /** `batches` cuts `items` into runs of `size`: nothing lost, nothing
      reordered, no batch empty or larger than `size`, and only the last one
      shorter. */
  ghost predicate IsBatching<T>(batches: seq<seq<T>>, items: seq<T>, size: int)
  {
    && Flatten(batches) == items
    && (forall b :: 0 <= b < |batches| ==> 1 <= |batches[b]| <= size)
    && (forall b :: 0 <= b < |batches| - 1 ==> |batches[b]| == size)
  }

  /** The outer loop takes batches while items remain; the inner one copies
      up to `size` items into the current batch. */
  method Chunk<T>(items: seq<T>, size: int) returns (batches: seq<seq<T>>)
    requires size > 0
    ensures IsBatching(batches, items, size)
  {
    batches := [];
    var i := 0;
    while i < |items|
      invariant 0 <= i <= |items|
      invariant Flatten(batches) == items[..i]
      invariant forall b :: 0 <= b < |batches| ==> 1 <= |batches[b]| <= size
      invariant i < |items| ==> forall b :: 0 <= b < |batches| ==> |batches[b]| == size
      invariant forall b :: 0 <= b < |batches| - 1 ==> |batches[b]| == size
    {
      var batch := [];
      var j := 0;
      ghost var start := i;
      while j < size && i < |items|
        invariant 0 <= j <= size
        invariant i == start + j <= |items|
        invariant batch == items[start..i]
      {
        batch := batch + [items[i]];
        j, i := j + 1, i + 1;
      }
      assert (batches + [batch])[..|batches|] == batches;
      assert items[..i] == items[..start] + batch;
      batches := batches + [batch];
    }
    assert items[..i] == items;
  }

  /** Laying two runs of batches end to end. */
  lemma {:induction false} FlattenConcat<T>(a: seq<seq<T>>, b: seq<seq<T>>)
    ensures Flatten(a + b) == Flatten(a) + Flatten(b)
    decreases |b|
  {
    if b == [] {
      assert a + b == a;
    } else {
      var b' := b[..|b| - 1];
      FlattenConcat(a, b');
      assert (a + b)[..|a + b| - 1] == a + b';
    }
  }

  /** Non-empty batches hold at least one item each. */
  lemma {:induction false} FlattenAtLeast<T>(batches: seq<seq<T>>)
    requires forall b :: 0 <= b < |batches| ==> |batches[b]| >= 1
    ensures |Flatten(batches)| >= |batches|
  {
    if batches != [] {
      FlattenAtLeast(batches[..|batches| - 1]);
    }
  }

  /** An empty list has no batches. */
  lemma NoItemsNoBatches<T>(batches: seq<seq<T>>, size: int)
    requires IsBatching(batches, [], size)
    ensures batches == []
  {
    FlattenAtLeast(batches);
  }

  /** The first batch takes `size` items, or the whole list when it is
      shorter; the remaining batches are a batching of the rest. */
  lemma FirstBatch<T>(batches: seq<seq<T>>, items: seq<T>, size: int)
    requires IsBatching(batches, items, size) && items != []
    ensures batches != []
    ensures |batches[0]| == if |items| <= size then |items| else size
    ensures batches[0] == items[..|batches[0]|]
    ensures IsBatching(batches[1..], items[|batches[0]|..], size)
  {
    var h, t := batches[0], batches[1..];
    FlattenConcat([h], t);
    assert [h] + t == batches;
    assert Flatten([h]) == h by { assert [h][..0] == []; }
    FlattenAtLeast(t);
    if |batches| == 1 {
      assert Flatten(t) == [];
    }
    forall b | 0 <= b < |t| ensures 1 <= |t[b]| <= size { assert t[b] == batches[b + 1]; }
    forall b | 0 <= b < |t| - 1 ensures |t[b]| == size { assert t[b] == batches[b + 1]; }
  }

  /** A batching of n items by `size` has n / size batches, rounded up:
      the last batch starts before item n and the batches hold no more than
      their combined capacity. */
  lemma {:induction false} BatchCount<T>(batches: seq<seq<T>>, items: seq<T>, size: int)
    requires size > 0 && IsBatching(batches, items, size)
    ensures (|batches| - 1) * size < |items| <= |batches| * size || (items == [] && batches == [])
    decreases |items|
  {
    if items == [] {
      NoItemsNoBatches(batches, size);
    } else {
      FirstBatch(batches, items, size);
      var rest := items[|batches[0]|..];
      var k := |batches| - 1;
      BatchCount(batches[1..], rest, size);
      if |items| > size {
        assert |rest| == |items| - size;
        assert (k - 1) * size < |rest| <= k * size;
        assert k * size == (k - 1) * size + size;
        assert (k + 1) * size == k * size + size;
      }
    }
  }

  /** There is only one way to batch a list: the batching is determined by
      the items and the size. */
  lemma {:induction false} BatchingUnique<T>(b1: seq<seq<T>>, b2: seq<seq<T>>, items: seq<T>, size: int)
    requires IsBatching(b1, items, size) && IsBatching(b2, items, size)
    ensures b1 == b2
    decreases |items|
  {
    if items == [] {
      NoItemsNoBatches(b1, size);
      NoItemsNoBatches(b2, size);
    } else {
      FirstBatch(b1, items, size);
      FirstBatch(b2, items, size);
      BatchingUnique(b1[1..], b2[1..], items[|b1[0]|..], size);
      assert b1 == [b1[0]] + b1[1..] && b2 == [b2[0]] + b2[1..];
    }
  }
}
