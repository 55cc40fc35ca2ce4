/**
 * Rows of a table with a primary key, and the two writes Room generates for
 * a DAO: `@Insert(onConflict = REPLACE)` (the row with the new row's key, if
 * any, is deleted, then the new row is stored) and `@Delete` (the row with
 * the entity's key is removed; absent rows are not an error).
 */
module Keyed {
  import opened Wrappers
  import Lists

  /** No two rows share a key: the table is keyed by `key`. */
  predicate Unique<T, K(==)>(rows: seq<T>, key: T -> K)
  {
    forall i, j :: 0 <= i < j < |rows| ==> key(rows[i]) != key(rows[j])
  }

  /** The rows whose key is not `k`. */
  function Without<T(==,!new), K(==)>(rows: seq<T>, key: T -> K, k: K): (r: seq<T>)
    ensures forall x :: x in r <==> x in rows && key(x) != k
    ensures Unique(rows, key) ==> Unique(r, key)
    ensures |r| <= |rows|
  {
    var r := Lists.Filter(rows, x => key(x) != k);
    if Unique(rows, key) then
      UniqueSubsequence(r, rows, key);
      r
    else r
  }

  /** Insert-or-replace: the table afterwards holds `x` and every row with another key. */
  function Upsert<T(==,!new), K(==)>(rows: seq<T>, key: T -> K, x: T): (r: seq<T>)
    ensures forall y :: y in r <==> y == x || (y in rows && key(y) != key(x))
    ensures Unique(rows, key) ==> Unique(r, key)
  {
    var rest := Without(rows, key, key(x));
    var r := rest + [x];
    assert forall y :: y in r <==> y in rest || y == x;
    r
  }

  /** `SELECT ... WHERE key = :k LIMIT 1`. */
  function Lookup<T, K(==)>(rows: seq<T>, key: T -> K, k: K): (r: Option<T>)
    ensures r.Some? ==> r.value in rows && key(r.value) == k
    ensures r.None? <==> forall x :: x in rows ==> key(x) != k
  {
    Lists.FindFirst(rows, x => key(x) == k)
  }

  /** In a keyed table the lookup finds exactly the row with that key. */
  lemma LookupUnique<T, K>(rows: seq<T>, key: T -> K, x: T)
    requires Unique(rows, key) && x in rows
    ensures Lookup(rows, key, key(x)) == Some(x)
  {
    var r := Lookup(rows, key, key(x));
    var i :| 0 <= i < |rows| && rows[i] == r.value;
    var j :| 0 <= j < |rows| && rows[j] == x;
    assert i == j;
  }

  /** After an insert, looking the new row's key up yields the new row. */
  lemma LookupAfterUpsert<T(!new), K>(rows: seq<T>, key: T -> K, x: T)
    requires Unique(rows, key)
    ensures Lookup(Upsert(rows, key, x), key, key(x)) == Some(x)
  {
    LookupUnique(Upsert(rows, key, x), key, x);
  }

  /** An insert changes no lookup of another key. */
  lemma LookupOtherAfterUpsert<T(!new), K>(rows: seq<T>, key: T -> K, x: T, k: K)
    requires Unique(rows, key) && k != key(x)
    ensures Lookup(Upsert(rows, key, x), key, k) == Lookup(rows, key, k)
  {
    var before := Lookup(rows, key, k);
    if before.Some? {
      LookupUnique(rows, key, before.value);
      LookupUnique(Upsert(rows, key, x), key, before.value);
    }
  }

  /** A delete changes no lookup of another key, and the deleted key is absent. */
  lemma LookupAfterWithout<T(!new), K>(rows: seq<T>, key: T -> K, k: K, k': K)
    requires Unique(rows, key)
    ensures Lookup(Without(rows, key, k), key, k) == None
    ensures k' != k ==> Lookup(Without(rows, key, k), key, k') == Lookup(rows, key, k')
  {
    var before := Lookup(rows, key, k');
    if k' != k && before.Some? {
      LookupUnique(rows, key, before.value);
      LookupUnique(Without(rows, key, k), key, before.value);
    }
  }

  /** Inserting the same row twice leaves the same table as inserting it once. */
  lemma {:induction false} UpsertIdempotent<T(!new), K>(rows: seq<T>, key: T -> K, x: T)
    ensures Upsert(Upsert(rows, key, x), key, x) == Upsert(rows, key, x)
  {
    var rest := Without(rows, key, key(x));
    Lists.FilterAppend(rest, [x], y => key(y) != key(x));
    Lists.FilterAll(rest, y => key(y) != key(x));
    assert Lists.Filter([x], y => key(y) != key(x)) == [];
  }

  /** Deleting an absent key leaves the table as it was. */
  lemma WithoutAbsent<T(!new), K>(rows: seq<T>, key: T -> K, k: K)
    requires forall x :: x in rows ==> key(x) != k
    ensures Without(rows, key, k) == rows
  {
    Lists.FilterAll(rows, x => key(x) != k);
  }

  /** The number of rows with key `k`. */
  function KeyCount<T(==,!new), K(==)>(rows: seq<T>, key: T -> K, k: K): nat
  {
    |Lists.Filter(rows, y => key(y) == k)|
  }

  /** After an insert exactly one row carries the inserted key. */
  lemma UpsertLeavesOneRow<T(!new), K>(rows: seq<T>, key: T -> K, x: T)
    ensures KeyCount(Upsert(rows, key, x), key, key(x)) == 1
  {
    var rest := Without(rows, key, key(x));
    Lists.FilterAppend(rest, [x], y => key(y) == key(x));
    assert Lists.Filter(rest, y => key(y) == key(x)) == [];
  }

  /** A subsequence of a keyed sequence is keyed. */
  lemma {:induction false} UniqueSubsequence<T, K>(a: seq<T>, b: seq<T>, key: T -> K)
    requires Lists.Subsequence(a, b) && Unique(b, key)
    ensures Unique(a, key)
    decreases |b|
  {
    if a != [] {
      assert Unique(b[1..], key) by {
        forall i, j | 0 <= i < j < |b| - 1 ensures key(b[1..][i]) != key(b[1..][j]) {
          assert b[1..][i] == b[i + 1] && b[1..][j] == b[j + 1];
        }
      }
      if a[0] == b[0] && Lists.Subsequence(a[1..], b[1..]) {
        UniqueSubsequence(a[1..], b[1..], key);
        SubsequenceMembers(a[1..], b[1..]);
        forall i, j | 0 <= i < j < |a| ensures key(a[i]) != key(a[j]) {
          if i == 0 {
            assert a[j] == a[1..][j - 1];
            assert a[j] in b[1..];
            var m :| 0 <= m < |b[1..]| && b[1..][m] == a[j];
            assert b[m + 1] == a[j];
          } else {
            assert a[i] == a[1..][i - 1] && a[j] == a[1..][j - 1];
          }
        }
      } else {
        UniqueSubsequence(a, b[1..], key);
      }
    }
  }

  lemma {:induction false} SubsequenceMembers<T>(a: seq<T>, b: seq<T>)
    requires Lists.Subsequence(a, b)
    ensures forall x :: x in a ==> x in b
    decreases |b|
  {
    if a != [] {
      if a[0] == b[0] && Lists.Subsequence(a[1..], b[1..]) {
        SubsequenceMembers(a[1..], b[1..]);
        assert forall x :: x in a ==> x == a[0] || x in a[1..];
        assert forall x :: x in b[1..] ==> x in b;
      } else {
        SubsequenceMembers(a, b[1..]);
        assert forall x :: x in b[1..] ==> x in b;
      }
    }
  }
}
