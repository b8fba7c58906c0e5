/**
 * The array operations the pages rely on, written out as the ECMAScript
 * built-ins behave: `Array.prototype.filter`, `find`, `some` and the
 * insertion-ordered de-duplication of `Array.from(new Set(xs))`.
 */
module JsArray {
  import opened Wrappers

  /** `a` can be obtained from `b` by deleting elements (order is kept). */
  predicate IsSubsequence<T(==)>(a: seq<T>, b: seq<T>)
    decreases |b|
  {
    a == [] ||
    (b != [] && ((a[0] == b[0] && IsSubsequence(a[1..], b[1..])) || IsSubsequence(a, b[1..])))
  }

  /** No value occurs twice. */
  predicate NoDuplicates<T(==)>(xs: seq<T>) {
    forall i, j :: 0 <= i < j < |xs| ==> xs[i] != xs[j]
  }

  /** `xs.map(f)`. */
  function MapSeq<T, U>(xs: seq<T>, f: T -> U): seq<U> {
    seq(|xs|, i requires 0 <= i < |xs| => f(xs[i]))
  }

  /** `xs.filter(p)`: the elements satisfying `p`, left to right. */
  function Keep<T>(xs: seq<T>, p: T -> bool): (r: seq<T>)
    ensures |r| <= |xs|
    ensures forall x :: x in r ==> x in xs && p(x)
    ensures forall i :: 0 <= i < |xs| && p(xs[i]) ==> xs[i] in r
  {
    if xs == [] then []
    else (if p(xs[0]) then [xs[0]] else []) + Keep(xs[1..], p)
  }

  /** The filtered list is an order-preserving selection of the input. */
  lemma {:induction false} KeepIsSubsequence<T>(xs: seq<T>, p: T -> bool)
    ensures IsSubsequence(Keep(xs, p), xs)
  {
    if xs != [] {
      KeepIsSubsequence(xs[1..], p);
      var rest := Keep(xs[1..], p);
      if p(xs[0]) {
        assert Keep(xs, p) == [xs[0]] + rest;
        assert ([xs[0]] + rest)[1..] == rest;
      } else {
        assert Keep(xs, p) == rest;
      }
    }
  }

  /** Each value is kept exactly as often as it occurs when it satisfies `p`, and never otherwise. */
  lemma {:induction false} KeepCount<T>(xs: seq<T>, p: T -> bool, x: T)
    ensures multiset(Keep(xs, p))[x] == if p(x) then multiset(xs)[x] else 0
  {
    if xs != [] {
      KeepCount(xs[1..], p, x);
      assert xs == [xs[0]] + xs[1..];
      assert multiset(xs) == multiset([xs[0]]) + multiset(xs[1..]);
      var head := if p(xs[0]) then [xs[0]] else [];
      assert multiset(Keep(xs, p)) == multiset(head) + multiset(Keep(xs[1..], p));
    }
  }

  /** An element is kept exactly when it occurs in the input and satisfies `p`. */
  lemma KeepMembership<T>(xs: seq<T>, p: T -> bool, x: T)
    ensures x in Keep(xs, p) <==> x in xs && p(x)
  {
    if x in xs && p(x) {
      var i :| 0 <= i < |xs| && xs[i] == x;
    }
  }

  /** A filter whose predicate holds nowhere returns the empty list. */
  lemma {:induction false} KeepNone<T>(xs: seq<T>, p: T -> bool)
    requires forall i :: 0 <= i < |xs| ==> !p(xs[i])
    ensures Keep(xs, p) == []
  {
    if xs != [] {
      KeepNone(xs[1..], p);
    }
  }

  /** Filtering by a predicate and by its negation splits the list: every element lands in exactly one part. */
  lemma {:induction false} KeepPartition<T>(xs: seq<T>, p: T -> bool, q: T -> bool)
    requires forall x :: q(x) == !p(x)
    ensures multiset(Keep(xs, p)) + multiset(Keep(xs, q)) == multiset(xs)
  {
    if xs != [] {
      KeepPartition(xs[1..], p, q);
      assert xs == [xs[0]] + xs[1..];
      assert Keep(xs, p) == (if p(xs[0]) then [xs[0]] else []) + Keep(xs[1..], p);
      assert Keep(xs, q) == (if q(xs[0]) then [xs[0]] else []) + Keep(xs[1..], q);
    }
  }

  /** `xs.findIndex(p)`: the index of the first element satisfying `p`. */
  function FindIndex<T>(xs: seq<T>, p: T -> bool): (r: Option<nat>)
    ensures r.Some? ==> r.value < |xs| && p(xs[r.value])
    ensures r.Some? ==> forall j :: 0 <= j < r.value ==> !p(xs[j])
    ensures r.None? <==> forall j :: 0 <= j < |xs| ==> !p(xs[j])
  {
    if xs == [] then None
    else if p(xs[0]) then Some(0)
    else match FindIndex(xs[1..], p)
      case None => None
      case Some(i) => Some(i + 1)
  }

  /** `xs.find(p)`: the first element satisfying `p`, or `undefined`. */
  function Find<T>(xs: seq<T>, p: T -> bool): (r: Option<T>)
    ensures r.None? <==> forall j :: 0 <= j < |xs| ==> !p(xs[j])
    ensures r.Some? ==> exists i :: 0 <= i < |xs| && xs[i] == r.value && p(xs[i]) &&
                                    forall j :: 0 <= j < i ==> !p(xs[j])
  {
    match FindIndex(xs, p)
    case None => None
    case Some(i) => Some(xs[i])
  }

  /** `xs.some(p)`. */
  function Any<T>(xs: seq<T>, p: T -> bool): (r: bool)
    ensures r <==> exists i :: 0 <= i < |xs| && p(xs[i])
  {
    FindIndex(xs, p).Some?
  }

  /** The position of the first occurrence of `x` in `xs`. */
  function FirstIndex<T(==)>(xs: seq<T>, x: T): (i: nat)
    requires x in xs
    ensures i < |xs| && xs[i] == x && x !in xs[..i]
  {
    if xs[0] == x then 0
    else
      var k := FirstIndex(xs[1..], x);
      assert xs[..k + 1] == [xs[0]] + xs[1..][..k];
      k + 1
  }

  /** Appending elements does not move a first occurrence. */
  lemma FirstIndexPrefix<T>(a: seq<T>, b: seq<T>, x: T)
    requires x in a
    ensures FirstIndex(a + b, x) == FirstIndex(a, x)
  {
    var j := FirstIndex(a, x);
    assert (a + b)[j] == x;
    assert (a + b)[..j] == a[..j];
  }

  /**
   * `Array.from(new Set(xs))`: each value once, in the order in which the
   * Set first received it. Built as the Set is, one insertion at a time.
   */
  function Distinct<T(==)>(xs: seq<T>): (r: seq<T>)
    ensures forall i :: 0 <= i < |r| ==> r[i] in xs
    ensures forall i :: 0 <= i < |xs| ==> xs[i] in r
    ensures NoDuplicates(r)
  {
    if xs == [] then []
    else
      var init, x := xs[..|xs| - 1], xs[|xs| - 1];
      assert xs == init + [x];
      var d := Distinct(init);
      if x in d then d else d + [x]
  }

  /** The values of `Distinct(xs)` are listed in the order of their first occurrence in `xs`. */
  lemma {:induction false} DistinctOrder<T>(xs: seq<T>)
    ensures forall i, j :: 0 <= i < j < |Distinct(xs)| ==>
      FirstIndex(xs, Distinct(xs)[i]) < FirstIndex(xs, Distinct(xs)[j])
  {
    if xs != [] {
      var init, x := xs[..|xs| - 1], xs[|xs| - 1];
      assert xs == init + [x];
      var d := Distinct(init);
      DistinctOrder(init);
      forall y | y in init ensures FirstIndex(xs, y) == FirstIndex(init, y) {
        FirstIndexPrefix(init, [x], y);
      }
      if x !in d {
        assert x !in init;
        assert FirstIndex(xs, x) == |init|;
      }
    }
  }
}
