/**
 * `Array.prototype.sort` with a comparator `(a, b) => key(b) - key(a)`:
 * the array is put in place into non-increasing key order.
 */
module Sorting {

  /** No element is followed by one with a greater key. */
  predicate NonIncreasing<T>(xs: seq<T>, key: T -> int) {
    forall i, j :: 0 <= i < j < |xs| ==> key(xs[i]) >= key(xs[j])
  }

  /** `perm` lists each position below `n` exactly once. */
  predicate IsPermutation(perm: seq<nat>, n: nat) {
    && |perm| == n
    && (forall i :: 0 <= i < n ==> perm[i] < n)
    && (forall i, j :: 0 <= i < j < n ==> perm[i] != perm[j])
  }

  /** `ys` is `xs` rearranged: position `k` of `ys` holds position `perm[k]` of `xs`. */
  ghost predicate Reorders<T>(xs: seq<T>, ys: seq<T>, perm: seq<nat>) {
    |xs| == |ys| && IsPermutation(perm, |xs|) && forall k :: 0 <= k < |ys| ==> ys[k] == xs[perm[k]]
  }

  /** Exchanging two neighbours keeps `ys` a rearrangement of `xs`. */
  lemma SwapReorders<T>(xs: seq<T>, ys: seq<T>, perm: seq<nat>, j: nat)
    requires Reorders(xs, ys, perm) && 0 < j < |ys|
    ensures Reorders(xs, ys[j - 1 := ys[j]][j := ys[j - 1]], perm[j - 1 := perm[j]][j := perm[j - 1]])
  {
    var perm' := perm[j - 1 := perm[j]][j := perm[j - 1]];
    forall p, q | 0 <= p < q < |xs|
      ensures perm'[p] != perm'[q]
    {
      var p0 := if p == j - 1 then j else if p == j then j - 1 else p;
      var q0 := if q == j - 1 then j else if q == j then j - 1 else q;
      assert perm'[p] == perm[p0] && perm'[q] == perm[q0];
      if p0 < q0 { assert perm[p0] != perm[q0]; } else { assert perm[q0] != perm[p0]; }
    }
  }

  /** Exchanging two neighbours keeps the same elements, each as often. */
  lemma SwapMultiset<T>(ys: seq<T>, j: nat)
    requires 0 < j < |ys|
    ensures multiset(ys[j - 1 := ys[j]][j := ys[j - 1]]) == multiset(ys)
  {
  }

  /**
   * While an element sinks into the sorted prefix `xs[..i+1]`: the prefix is
   * in order apart from position `j`, whose key beats all after it.
   */
  predicate SinkingAt<T>(xs: seq<T>, key: T -> int, i: nat, j: nat) {
    && j <= i < |xs|
    && (forall p, q :: 0 <= p < q <= i && p != j && q != j ==> key(xs[p]) >= key(xs[q]))
    && (forall q :: j < q <= i ==> key(xs[j]) > key(xs[q]))
  }

  lemma SinkStart<T>(xs: seq<T>, key: T -> int, i: nat)
    requires i < |xs| && NonIncreasing(xs[..i], key)
    ensures SinkingAt(xs, key, i, i)
  {
    forall p, q | 0 <= p < q <= i && p != i && q != i
      ensures key(xs[p]) >= key(xs[q])
    {
      assert xs[p] == xs[..i][p] && xs[q] == xs[..i][q];
    }
  }

  lemma SinkSwap<T>(xs: seq<T>, key: T -> int, i: nat, j: nat)
    requires SinkingAt(xs, key, i, j) && 0 < j && key(xs[j - 1]) < key(xs[j])
    ensures SinkingAt(xs[j - 1 := xs[j]][j := xs[j - 1]], key, i, j - 1)
  {
  }

  lemma SinkDone<T>(xs: seq<T>, key: T -> int, i: nat, j: nat)
    requires SinkingAt(xs, key, i, j) && (j == 0 || key(xs[j - 1]) >= key(xs[j]))
    ensures NonIncreasing(xs[..i + 1], key)
  {
    var ys := xs[..i + 1];
    forall p, q | 0 <= p < q < |ys|
      ensures key(ys[p]) >= key(ys[q])
    {
      if q == j && p < j - 1 {
        assert key(xs[p]) >= key(xs[j - 1]);
      }
    }
  }

  /** Sinks `a[i]` into the sorted prefix `a[..i]` by exchanges with its left neighbour. */
  method Sink<T>(a: array<T>, key: T -> int, i: nat, ghost orig: seq<T>, ghost perm: seq<nat>)
    returns (ghost perm': seq<nat>)
    modifies a
    requires i < a.Length && NonIncreasing(a[..i], key) && Reorders(orig, a[..], perm)
    requires multiset(a[..]) == multiset(orig)
    ensures NonIncreasing(a[..i + 1], key) && Reorders(orig, a[..], perm')
    ensures multiset(a[..]) == multiset(orig)
  {
    SinkStart(a[..], key, i);
    perm' := perm;
    var j: nat := i;
    while j > 0 && key(a[j - 1]) < key(a[j])
      invariant SinkingAt(a[..], key, i, j)
      invariant Reorders(orig, a[..], perm')
      invariant multiset(a[..]) == multiset(orig)
    {
      SinkSwap(a[..], key, i, j);
      SwapReorders(orig, a[..], perm', j);
      SwapMultiset(a[..], j);
      ghost var before := a[..];
      a[j - 1], a[j] := a[j], a[j - 1];
      assert a[..] == before[j - 1 := before[j]][j := before[j - 1]];
      perm' := perm'[j - 1 := perm'[j]][j := perm'[j - 1]];
      j := j - 1;
    }
    SinkDone(a[..], key, i, j);
  }

  /** Insertion sort by exchange of neighbours, greatest key first. */
  method SortByKeyDescending<T>(a: array<T>, key: T -> int) returns (ghost perm: seq<nat>)
    modifies a
    ensures NonIncreasing(a[..], key)
    ensures Reorders(old(a[..]), a[..], perm)
    ensures multiset(a[..]) == multiset(old(a[..]))
  {
    ghost var orig := a[..];
    perm := seq(a.Length, k => k);
    var i := 0;
    while i < a.Length
      invariant 0 <= i <= a.Length
      invariant NonIncreasing(a[..i], key)
      invariant Reorders(orig, a[..], perm)
      invariant multiset(a[..]) == multiset(orig)
    {
      perm := Sink(a, key, i, orig, perm);
      i := i + 1;
    }
    assert a[..a.Length] == a[..];
  }
}
