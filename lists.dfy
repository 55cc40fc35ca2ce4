/**
 * The Kotlin collection operations the app's view logic is written with
 * (`filter`, `find`, `mapNotNull`, `sumOf`, and the lookup in a map built by
 * `associateBy`), as recursive functions over sequences, each with the
 * contract the Kotlin standard library documents.
 */
module Lists {
  import opened Wrappers

  /** `a` can be obtained from `b` by deleting elements: order is kept. */
  predicate Subsequence<T(==)>(a: seq<T>, b: seq<T>)
    decreases |b|
  {
    a == [] || (b != [] && ((a[0] == b[0] && Subsequence(a[1..], b[1..])) || Subsequence(a, b[1..])))
  }

  /** `filter`: the elements satisfying `p`, each as often as in `xs`, in the order of `xs`. */
  function Filter<T(==,!new)>(xs: seq<T>, p: T -> bool): (r: seq<T>)
    ensures |r| <= |xs|
    ensures forall x :: x in r <==> x in xs && p(x)
    ensures forall x :: multiset(r)[x] == if p(x) then multiset(xs)[x] else 0
    ensures Subsequence(r, xs)
  {
    if xs == [] then []
    else
      assert xs == [xs[0]] + xs[1..];
      var rest := Filter(xs[1..], p);
      if p(xs[0]) then [xs[0]] + rest else rest
  }

  /** `find` / `firstOrNull { p }`: the first element satisfying `p`, or null. */
  function FindFirst<T>(xs: seq<T>, p: T -> bool): (r: Option<T>)
    ensures r.None? <==> forall i :: 0 <= i < |xs| ==> !p(xs[i])
    ensures r.Some? ==> exists i :: 0 <= i < |xs| && xs[i] == r.value && p(xs[i])
                                   && forall j :: 0 <= j < i ==> !p(xs[j])
  {
    if xs == [] then None
    else if p(xs[0]) then Some(xs[0])
    else
      var r := FindFirst(xs[1..], p);
      assert forall i :: 1 <= i < |xs| ==> xs[i] == xs[1..][i - 1];
      r
  }

  /**
   * The lookup `m[k]` in a map `m = xs.associateBy { key }`: building the map
   * overwrites earlier entries, so the LAST element satisfying `p` is found.
   */
  function FindLast<T>(xs: seq<T>, p: T -> bool): (r: Option<T>)
    ensures r.None? <==> forall i :: 0 <= i < |xs| ==> !p(xs[i])
    ensures r.Some? ==> exists i :: 0 <= i < |xs| && xs[i] == r.value && p(xs[i])
                                   && forall j :: i < j < |xs| ==> !p(xs[j])
  {
    if xs == [] then None
    else if p(xs[|xs| - 1]) then Some(xs[|xs| - 1])
    else FindLast(xs[..|xs| - 1], p)
  }

  /** `mapNotNull`: the non-null images under `f`, in the order of `xs`. */
  function MapNotNull<T, U>(xs: seq<T>, f: T -> Option<U>): (r: seq<U>)
    ensures |r| <= |xs|
    ensures forall y :: y in r ==> exists x :: x in xs && f(x) == Some(y)
    ensures forall x :: x in xs && f(x).Some? ==> f(x).value in r
    ensures (forall x :: x in xs ==> f(x).Some?) ==>
              |r| == |xs| && forall i :: 0 <= i < |xs| ==> f(xs[i]) == Some(r[i])
  {
    if xs == [] then []
    else
      var rest := MapNotNull(xs[1..], f);
      assert forall x :: x in xs[1..] ==> x in xs;
      match f(xs[0])
      case Some(y) => [y] + rest
      case None => rest
  }

  /** `sumOf`: the sum of `f` over the elements. */
  function SumOf<T>(xs: seq<T>, f: T -> real): real
  {
    if xs == [] then 0.0 else f(xs[0]) + SumOf(xs[1..], f)
  }

  /** `mapNotNull` over a concatenation is the concatenation of the two results. */
  lemma {:induction false} MapNotNullAppend<T, U>(xs: seq<T>, ys: seq<T>, f: T -> Option<U>)
    ensures MapNotNull(xs + ys, f) == MapNotNull(xs, f) + MapNotNull(ys, f)
  {
    if xs != [] {
      assert (xs + ys)[1..] == xs[1..] + ys;
      MapNotNullAppend(xs[1..], ys, f);
    } else {
      assert xs + ys == ys;
    }
  }

  /** `filter` depends only on what the predicate says, not on how it is written. */
  lemma {:induction false} FilterCongruent<T(!new)>(xs: seq<T>, p: T -> bool, q: T -> bool)
    requires forall x :: p(x) == q(x)
    ensures Filter(xs, p) == Filter(xs, q)
  {
    if xs != [] {
      FilterCongruent(xs[1..], p, q);
    }
  }

  /** Filtering twice is filtering once by the conjunction. */
  lemma {:induction false} FilterFilter<T(!new)>(xs: seq<T>, p: T -> bool, q: T -> bool, pq: T -> bool)
    requires forall x :: pq(x) == (p(x) && q(x))
    ensures Filter(Filter(xs, p), q) == Filter(xs, pq)
  {
    if xs != [] {
      FilterFilter(xs[1..], p, q, pq);
    }
  }

  /** `filter` distributes over concatenation. */
  lemma {:induction false} FilterAppend<T(!new)>(xs: seq<T>, ys: seq<T>, p: T -> bool)
    ensures Filter(xs + ys, p) == Filter(xs, p) + Filter(ys, p)
  {
    if xs == [] {
      assert xs + ys == ys;
    } else {
      assert (xs + ys)[1..] == xs[1..] + ys;
      FilterAppend(xs[1..], ys, p);
    }
  }

  /** Filtering a sequence all of whose elements pass leaves it unchanged. */
  lemma {:induction false} FilterAll<T(!new)>(xs: seq<T>, p: T -> bool)
    requires forall x :: x in xs ==> p(x)
    ensures Filter(xs, p) == xs
  {
    if xs != [] {
      assert forall x :: x in xs[1..] ==> x in xs;
      FilterAll(xs[1..], p);
    }
  }

  /** `sumOf` over non-negative terms is non-negative. */
  lemma {:induction false} SumOfNonNegative<T>(xs: seq<T>, f: T -> real)
    requires forall x :: x in xs ==> f(x) >= 0.0
    ensures SumOf(xs, f) >= 0.0
  {
    if xs != [] {
      assert forall x :: x in xs[1..] ==> x in xs;
      SumOfNonNegative(xs[1..], f);
    }
  }
}
