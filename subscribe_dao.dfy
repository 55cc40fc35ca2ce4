/**
 * The enrollment table behind `SubscribeRepository`. Its DAO is not part of
 * this model; it is given the shape its callers rely on: enrollments are
 * stored insert-or-replace on the (studentId, courseId) pair, so
 * re-inserting a copy with a new score replaces the old row, and the
 * per-student query returns the matching rows.
 */
module SubscribeDao {
  import opened Entities
  import Keyed
  import opened Wrappers
  import Lists

  function PairKey(s: Subscribe): (int, int) { (s.studentId, s.courseId) }

  /** `getSubscribesByStudent(studentId)`. */
  function ByStudent(rows: seq<Subscribe>, studentId: int): (r: seq<Subscribe>)
    ensures forall s :: s in r <==> s in rows && s.studentId == studentId
    ensures Lists.Subsequence(r, rows)
  {
    Lists.Filter(rows, (s: Subscribe) => s.studentId == studentId)
  }

  class SubscribeTable {
    var rows: seq<Subscribe>

    ghost predicate Valid()
      reads this
    {
      Keyed.Unique(rows, PairKey)
    }

    constructor ()
      ensures Valid() && rows == []
    {
      rows := [];
    }

    /** `insertSubscribe`: insert-or-replace on the (studentId, courseId) pair. */
    method Insert(subscribe: Subscribe)
      requires Valid()
      modifies this
      ensures Valid()
      ensures forall s :: s in rows <==> s == subscribe || (s in old(rows) && PairKey(s) != PairKey(subscribe))
      ensures Keyed.Lookup(rows, PairKey, PairKey(subscribe)) == Some(subscribe)
    {
      rows := Keyed.Upsert(rows, PairKey, subscribe);
      Keyed.LookupAfterUpsert(old(rows), PairKey, subscribe);
    }

    /** `deleteSubscribe`: removes the row of that pair. */
    method Delete(subscribe: Subscribe)
      requires Valid()
      modifies this
      ensures Valid()
      ensures forall s :: s in rows <==> s in old(rows) && PairKey(s) != PairKey(subscribe)
    {
      rows := Keyed.Without(rows, PairKey, PairKey(subscribe));
    }
  }

  /** Enrolling a pair twice leaves one row for it, holding the latest score. */
  lemma ReEnrollReplacesScore(rows: seq<Subscribe>, first: Subscribe, second: Subscribe)
    requires Keyed.Unique(rows, PairKey)
    requires PairKey(first) == PairKey(second)
    ensures Keyed.Lookup(Keyed.Upsert(Keyed.Upsert(rows, PairKey, first), PairKey, second), PairKey, PairKey(second))
              == Some(second)
    ensures Keyed.KeyCount(Keyed.Upsert(Keyed.Upsert(rows, PairKey, first), PairKey, second), PairKey, PairKey(second)) == 1
  {
    Keyed.LookupAfterUpsert(Keyed.Upsert(rows, PairKey, first), PairKey, second);
    Keyed.UpsertLeavesOneRow(Keyed.Upsert(rows, PairKey, first), PairKey, second);
  }
}
