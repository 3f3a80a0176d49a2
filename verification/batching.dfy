/** Cutting the node list into fixed-size batches, as
    `for i in range(0, len(nodes), batch_size): batch = nodes[i:i + batch_size]`. */
module Batching {
  import opened Seqs

  /** `batch_size` of both embedders. */
  const BatchSize: nat := 100

  function Min(a: int, b: int): int
  {
    if a < b then a else b
  }

  /** The consecutive slices of at most `BatchSize` elements that cover `xs`,
      as many as the `(len + batch_size - 1) // batch_size` the loop reports. */
  function Batches<T>(xs: seq<T>): (bs: seq<seq<T>>)
    ensures Flatten(bs) == xs
    ensures forall k :: 0 <= k < |bs| ==> 0 < |bs[k]| <= BatchSize
    ensures forall k :: 0 <= k < |bs| - 1 ==> |bs[k]| == BatchSize
    ensures |bs| == (|xs| + BatchSize - 1) / BatchSize
    decreases |xs|
  {
    if |xs| == 0 then
      []
    else if |xs| <= BatchSize then
      assert Flatten([xs]) == xs + Flatten([xs][1..]);
      [xs]
    else
      var rest := Batches(xs[BatchSize..]);
      var bs := [xs[..BatchSize]] + rest;
      assert bs[1..] == rest;
      assert xs[..BatchSize] + xs[BatchSize..] == xs;
      bs
  }

  /** Batch `k` is the slice Python's loop takes at `i == k * batch_size`. */
  lemma {:induction false} BatchIsSlice<T>(xs: seq<T>, k: nat)
    requires k < |Batches(xs)|
    ensures k * BatchSize < |xs|
    ensures Batches(xs)[k] == xs[k * BatchSize .. Min(k * BatchSize + BatchSize, |xs|)]
    decreases |xs|
  {
    if k > 0 {
      assert |xs| > BatchSize;
      var tail := xs[BatchSize..];
      assert Batches(xs) == [xs[..BatchSize]] + Batches(tail);
      assert Batches(xs)[k] == Batches(tail)[k - 1];
      BatchIsSlice(tail, k - 1);
      var lo := (k - 1) * BatchSize;
      var hi := Min(lo + BatchSize, |tail|);
      assert lo + BatchSize == k * BatchSize;
      assert hi + BatchSize == Min(k * BatchSize + BatchSize, |xs|);
      SliceOfSuffix(xs, BatchSize, lo, hi);
    }
  }

}
