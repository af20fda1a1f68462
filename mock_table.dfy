/**
 * What the admin mock tables have in common: a module-level array searched
 * with `find`/`findIndex` on a predicate, overwritten at the first match and
 * appended to, and the `{ success, data?, error? }` response of a lookup.
 */
module MockTable {
  import opened Wrappers

  /** The response object of a lookup by id. */
  datatype Response<T> = Response(success: bool, data: Option<T>, error: Option<string>)

  /** `i` is the first position of `xs` whose element satisfies `p`. */
  predicate IsFirst<T>(xs: seq<T>, p: T -> bool, i: int) {
    0 <= i < |xs| && p(xs[i]) && forall j :: 0 <= j < i ==> !p(xs[j])
  }

  predicate Has<T>(xs: seq<T>, p: T -> bool) {
    exists j :: 0 <= j < |xs| && p(xs[j])
  }

  /** `xs.findIndex(p)`, with `None` for the -1 of "no element matches". */
  function FirstIndex<T>(xs: seq<T>, p: T -> bool): (r: Option<nat>)
    ensures r.Some? <==> Has(xs, p)
    ensures r.Some? ==> IsFirst(xs, p, r.value)
  {
    if xs == [] then None
    else if p(xs[0]) then Some(0)
    else
      var rest := FirstIndex(xs[1..], p);
      assert forall j :: 1 <= j < |xs| ==> xs[j] == xs[1..][j - 1];
      if rest.None? then
        assert !Has(xs, p) by {
          forall j | 0 <= j < |xs| ensures !p(xs[j]) {
            if j > 0 { assert xs[j] == xs[1..][j - 1]; }
          }
        }
        None
      else Some(rest.value + 1)
  }

  /** There is at most one first match. */
  lemma FirstIsUnique<T>(xs: seq<T>, p: T -> bool, i: int, k: int)
    requires IsFirst(xs, p, i) && IsFirst(xs, p, k)
    ensures i == k
  {
  }

  /**
   * The lookup by id: `find`, then either the not-found error or a field by
   * field copy of the match, which is the match itself.
   */
  function Lookup<T>(xs: seq<T>, p: T -> bool, notFound: string): (r: Response<T>)
    ensures r.success <==> Has(xs, p)
    ensures !r.success ==> r == Response(false, None, Some(notFound))
    ensures r.success ==> r.error.None? && exists i :: IsFirst(xs, p, i) && r.data == Some(xs[i])
  {
    match FirstIndex(xs, p)
    case None => Response(false, None, Some(notFound))
    case Some(i) => Response(true, Some(xs[i]), None)
  }

  /**
   * The table after `edit(x)` and its boolean result: the first element
   * satisfying `p` is overwritten with `x`; with no such element nothing changes.
   */
  function Replace<T>(xs: seq<T>, p: T -> bool, x: T): (r: (seq<T>, bool))
    ensures |r.0| == |xs|
    ensures r.1 <==> Has(xs, p)
    ensures !r.1 ==> r.0 == xs
    ensures r.1 ==> exists i :: IsFirst(xs, p, i) && r.0 == xs[i := x]
  {
    match FirstIndex(xs, p)
    case None => (xs, false)
    case Some(i) => (xs[i := x], true)
  }

  /** An edited row is found again by the id it carries. */
  lemma {:induction false} ReplaceThenLookup<T>(xs: seq<T>, p: T -> bool, x: T, notFound: string)
    requires p(x) && Has(xs, p)
    ensures Lookup(Replace(xs, p, x).0, p, notFound) == Response(true, Some(x), None)
  {
    var i := FirstIndex(xs, p).value;
    var ys := xs[i := x];
    assert IsFirst(ys, p, i);
    FirstIsUnique(ys, p, i, FirstIndex(ys, p).value);
  }

  /** An edit leaves every lookup that neither the old nor the new row answers as it was. */
  lemma {:induction false} ReplaceKeepsOtherLookups<T>(xs: seq<T>, p: T -> bool, q: T -> bool, x: T, notFound: string)
    requires !q(x) && forall y :: p(y) ==> !q(y)
    ensures Lookup(Replace(xs, p, x).0, q, notFound) == Lookup(xs, q, notFound)
  {
    var ys := Replace(xs, p, x).0;
    if Has(xs, p) {
      var i := FirstIndex(xs, p).value;
      assert ys == xs[i := x];
      assert forall j :: 0 <= j < |xs| ==> (q(ys[j]) <==> q(xs[j]));
      if Has(xs, q) {
        var k := FirstIndex(xs, q).value;
        assert IsFirst(ys, q, k);
        FirstIsUnique(ys, q, k, FirstIndex(ys, q).value);
      } else {
        assert !Has(ys, q);
      }
    }
  }

  /**
   * Appending never checks for a duplicate: a row whose id is already taken
   * is invisible to the lookup, and only a fresh id finds the new row.
   */
  lemma {:induction false} AppendThenLookup<T>(xs: seq<T>, p: T -> bool, x: T, notFound: string)
    requires p(x)
    ensures Lookup(xs + [x], p, notFound)
            == if Has(xs, p) then Lookup(xs, p, notFound) else Response(true, Some(x), None)
  {
    var ys := xs + [x];
    assert forall j :: 0 <= j < |xs| ==> ys[j] == xs[j];
    if Has(xs, p) {
      var i := FirstIndex(xs, p).value;
      assert IsFirst(ys, p, i);
      FirstIsUnique(ys, p, i, FirstIndex(ys, p).value);
    } else {
      assert IsFirst(ys, p, |xs|);
      FirstIsUnique(ys, p, |xs|, FirstIndex(ys, p).value);
    }
  }

  /** `Math.floor(Math.random() * n) + lo` for a draw `u` in [0, 1): a whole number from `lo` to `lo + n - 1`. */
  function Draw(u: real, n: nat, lo: int): (v: int)
    requires 0.0 <= u < 1.0 && n > 0
    ensures lo <= v < lo + n
  {
    MulBelow(u, n);
    (u * n as real).Floor + lo
  }

  lemma MulBelow(u: real, n: nat)
    requires 0.0 <= u < 1.0 && n > 0
    ensures 0.0 <= u * n as real < n as real
  {
  }
}
