/**
 * The order SQLite's default BINARY collation puts text in (code point by
 * code point, a proper prefix first), its extension to the multi-column
 * keys of an `ORDER BY a, b` clause, and an insertion sort that
 * produces a sorted permutation of a table's rows.
 */
module Ordering {

  /** `a` sorts no later than `b` under BINARY collation. */
  predicate TextLe(a: string, b: string)
  {
    a == [] || (b != [] && (a[0] < b[0] || (a[0] == b[0] && TextLe(a[1..], b[1..]))))
  }

  /** `ORDER BY k1, k2, ...`: the first differing column decides. */
  predicate KeyLe(a: seq<string>, b: seq<string>)
  {
    a == [] || (b != [] && (if a[0] == b[0] then KeyLe(a[1..], b[1..]) else TextLe(a[0], b[0])))
  }

  /** Every two neighbours are in order. */
  predicate Sorted<T>(xs: seq<T>, key: T -> seq<string>)
  {
    forall i :: 0 < i < |xs| ==> KeyLe(key(xs[i - 1]), key(xs[i]))
  }

  lemma {:induction false} TextLeTotal(a: string, b: string)
    ensures TextLe(a, b) || TextLe(b, a)
  {
    if a != [] && b != [] && a[0] == b[0] {
      TextLeTotal(a[1..], b[1..]);
    }
  }

  lemma {:induction false} TextLeTransitive(a: string, b: string, c: string)
    requires TextLe(a, b) && TextLe(b, c)
    ensures TextLe(a, c)
  {
    if a != [] && a[0] == b[0] && b[0] == c[0] {
      TextLeTransitive(a[1..], b[1..], c[1..]);
    }
  }

  lemma {:induction false} TextLeAntisymmetric(a: string, b: string)
    requires TextLe(a, b) && TextLe(b, a)
    ensures a == b
  {
    if a != [] {
      TextLeAntisymmetric(a[1..], b[1..]);
      assert a == [a[0]] + a[1..] && b == [b[0]] + b[1..];
    }
  }

  lemma {:induction false} KeyLeTotal(a: seq<string>, b: seq<string>)
    ensures KeyLe(a, b) || KeyLe(b, a)
  {
    if a != [] && b != [] {
      if a[0] == b[0] {
        KeyLeTotal(a[1..], b[1..]);
      } else {
        TextLeTotal(a[0], b[0]);
      }
    }
  }

  lemma {:induction false} KeyLeTransitive(a: seq<string>, b: seq<string>, c: seq<string>)
    requires KeyLe(a, b) && KeyLe(b, c)
    ensures KeyLe(a, c)
  {
    if a != [] {
      if a[0] == b[0] && b[0] == c[0] {
        KeyLeTransitive(a[1..], b[1..], c[1..]);
      } else if a[0] == b[0] {
        assert TextLe(b[0], c[0]);
      } else if b[0] == c[0] {
        assert TextLe(a[0], b[0]);
      } else {
        TextLeTransitive(a[0], b[0], c[0]);
        if a[0] == c[0] {
          TextLeAntisymmetric(a[0], b[0]);
        }
      }
    }
  }

  /** Neighbour-wise sortedness orders every pair, since KeyLe is transitive. */
  lemma {:induction false} SortedPairwise<T>(xs: seq<T>, key: T -> seq<string>, i: nat, j: nat)
    requires Sorted(xs, key) && i <= j < |xs|
    ensures KeyLe(key(xs[i]), key(xs[j]))
    decreases j - i
  {
    if i == j {
      KeyLeReflexive(key(xs[i]));
    } else {
      SortedPairwise(xs, key, i + 1, j);
      KeyLeTransitive(key(xs[i]), key(xs[i + 1]), key(xs[j]));
    }
  }

  lemma {:induction false} TextLeReflexive(a: string)
    ensures TextLe(a, a)
  {
    if a != [] {
      TextLeReflexive(a[1..]);
    }
  }

  /** On one-column keys KeyLe is the text order. */
  lemma KeyLeSingle(a: string, b: string)
    ensures KeyLe([a], [b]) <==> TextLe(a, b)
  {
    assert [a][1..] == [] && [b][1..] == [];
    if a == b {
      TextLeReflexive(a);
    }
  }

  lemma {:induction false} KeyLeReflexive(a: seq<string>)
    ensures KeyLe(a, a)
  {
    if a != [] {
      KeyLeReflexive(a[1..]);
    }
  }

  /** Inserts `x` before the first element it sorts no later than. */
  function InsertSorted<T>(x: T, xs: seq<T>, key: T -> seq<string>): (r: seq<T>)
    ensures multiset(r) == multiset(xs) + multiset{x}
    ensures |r| == |xs| + 1
    ensures r[0] == x || (xs != [] && r[0] == xs[0])
    ensures Sorted(xs, key) ==> Sorted(r, key)
  {
    if xs == [] then [x]
    else if KeyLe(key(x), key(xs[0])) then [x] + xs
    else
      assert xs == [xs[0]] + xs[1..];
      var rest := InsertSorted(x, xs[1..], key);
      KeyLeTotal(key(x), key(xs[0]));
      [xs[0]] + rest
  }

  /** Insertion sort: a sorted permutation of `xs`. */
  function SortBy<T>(xs: seq<T>, key: T -> seq<string>): (r: seq<T>)
    ensures multiset(r) == multiset(xs)
    ensures Sorted(r, key)
  {
    if xs == [] then []
    else
      assert xs == [xs[0]] + xs[1..];
      InsertSorted(xs[0], SortBy(xs[1..], key), key)
  }
}
