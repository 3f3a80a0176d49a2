/** Failure-carrying values shared by every part of the model. */
module Wrappers {

  /** A value that may be absent; Python's `None` return and the
      "raised and was caught" paths are both `None` here. */
  datatype Option<+T> = None | Some(value: T)

  /** Applies `f` to every element in order and succeeds only when every
      application succeeds: the shape of a Python loop whose body may raise
      inside a `try` that surrounds the whole loop. */
  function MapAll<A, B>(xs: seq<A>, f: A -> Option<B>): (r: Option<seq<B>>)
    ensures r.Some? <==> forall i :: 0 <= i < |xs| ==> f(xs[i]).Some?
    ensures r.Some? ==> |r.value| == |xs|
    ensures r.Some? ==> forall i :: 0 <= i < |xs| ==> f(xs[i]) == Some(r.value[i])
    decreases |xs|
  {
    if |xs| == 0 then Some([])
    else
      match f(xs[0])
      case None => None
      case Some(y) =>
        match MapAll(xs[1..], f)
        case None => None
        case Some(ys) => Some([y] + ys)
  }
}

/** Sequence helpers. */
module Seqs {

  /** Concatenation of a sequence of sequences, in order. */
  function Flatten<T>(xss: seq<seq<T>>): (r: seq<T>)
    decreases |xss|
  {
    if |xss| == 0 then [] else xss[0] + Flatten(xss[1..])
  }

  lemma {:induction false} FlattenAppend<T>(a: seq<seq<T>>, b: seq<seq<T>>)
    ensures Flatten(a + b) == Flatten(a) + Flatten(b)
    decreases |a|
  {
    if |a| == 0 {
      assert a + b == b;
    } else {
      assert (a + b)[1..] == a[1..] + b;
      FlattenAppend(a[1..], b);
    }
  }

  lemma ConcatAssoc<T>(a: seq<T>, b: seq<T>, c: seq<T>)
    ensures (a + b) + c == a + (b + c)
  {
  }

  /** A slice of a suffix is a slice of the whole, shifted. */
  lemma SliceOfSuffix<T>(xs: seq<T>, n: nat, a: nat, b: nat)
    requires n <= |xs| && a <= b <= |xs| - n
    ensures xs[n..][a..b] == xs[n + a..n + b]
  {
  }

  /** A prefix of length `k + 1` is the head followed by a prefix of the tail. */
  lemma ConsTake<T>(xs: seq<T>, k: nat)
    requires k < |xs|
    ensures xs[..k + 1] == [xs[0]] + xs[1..][..k]
  {
  }

  /** Extending a prefix by one element, seen from the head. */
  lemma TakeCons<T>(done: seq<T>, xs: seq<T>, k: nat)
    requires 0 < |xs| && k < |xs|
    ensures (done + [xs[0]]) + xs[1..][..k] == done + xs[..k + 1]
  {
    assert xs[..k + 1] == [xs[0]] + xs[1..][..k];
  }
}

/** Set facts. */
module Sets {

  /** A set with exactly the elements of a sequence is that sequence's element set. */
  lemma OfSeq<T>(a: set<T>, xs: seq<T>)
    requires forall x :: x in a <==> x in xs
    ensures a == set x | x in xs
  {
  }
}

/** Map-union facts, stated once so that proofs about tables of structured
    values need not rediscover them. */
module Maps {

  lemma UnionEmpty<K, V>(a: map<K, V>)
    ensures a + map[] == a && map[] + a == a
  {
  }

  lemma UnionAssoc<K, V>(a: map<K, V>, b: map<K, V>, c: map<K, V>)
    ensures (a + b) + c == a + (b + c)
  {
    var l := (a + b) + c;
    var r := a + (b + c);
    assert l.Keys == r.Keys;
    assert forall k | k in l :: l[k] == r[k];
  }

  lemma UnionSelf<K, V>(a: map<K, V>)
    ensures a + a == a
  {
  }
}
