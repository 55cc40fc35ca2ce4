/**
 * `SubscribeViewModel` (the `ui/viewmodel` one): the `combine` bodies of
 * `getAvailableCourses` and `getEnrolledCourses` over one snapshot of each
 * input list, `findSubscribe`, and the three writes.
 */
module SubscribeViewModel {
  import opened Wrappers
  import opened Entities
  import Lists
  import Keyed
  import SubscribeDao
  import Students = StudentViewModel

  /** `enrolled.map { it.courseId }.toSet()`. */
  function EnrolledIds(enrolled: seq<Subscribe>): set<int>
  {
    set s | s in enrolled :: s.courseId
  }

  /**
   * The two view models test "is this course subscribed" differently (`any`
   * over the subscriptions, membership in the id set); the tests agree.
   */
  lemma MembershipTestsAgree(subs: seq<Subscribe>, c: Course)
    ensures Students.HasSubscription(subs, c) <==> c.idCourse in EnrolledIds(subs)
  {
    if c.idCourse in EnrolledIds(subs) {
      var s :| s in subs && s.courseId == c.idCourse;
    }
  }

  /**
   * `getAvailableCourses`: the courses of the whole list at `level` whose id
   * no subscription of the student carries, in course-list order.
   */
  function AvailableCourses(allCourses: seq<Course>, enrolled: seq<Subscribe>, level: LevelCourse): (r: seq<Course>)
    ensures forall c :: c in r <==> c in allCourses && c.level == level && !Students.HasSubscription(enrolled, c)
    ensures Lists.Subsequence(r, allCourses)
  {
    Lists.Filter(allCourses, (c: Course) => c.level == level && c.idCourse !in EnrolledIds(enrolled))
  }

  /**
   * This variant filters the whole course list by level itself; the student
   * variant filters the level query's result. Both give the same list.
   */
  lemma AvailableAgreesWithStudentView(allCourses: seq<Course>, enrolled: seq<Subscribe>, level: LevelCourse)
    ensures AvailableCourses(allCourses, enrolled, level)
         == Students.AvailableCourses(Students.CoursesAtLevel(allCourses, level), enrolled)
  {
    Lists.FilterFilter(allCourses, (c: Course) => c.level == level, c => !Students.HasSubscription(enrolled, c),
                       (c: Course) => c.level == level && c.idCourse !in EnrolledIds(enrolled));
  }

  /** `allCourses.associateBy { it.idCourse }[id]`: the last course with that id wins. */
  function CourseById(allCourses: seq<Course>, id: int): (r: Option<Course>)
    ensures r.Some? ==> r.value in allCourses && r.value.idCourse == id
    ensures r.None? <==> forall c :: c in allCourses ==> c.idCourse != id
  {
    Lists.FindLast(allCourses, (c: Course) => c.idCourse == id)
  }

  /** With unique course ids the map lookup finds the one course with that id. */
  lemma CourseByIdUnique(allCourses: seq<Course>, c: Course)
    requires Keyed.Unique(allCourses, CourseKey) && c in allCourses
    ensures CourseById(allCourses, c.idCourse) == Some(c)
  {
    var r := CourseById(allCourses, c.idCourse);
    var i :| 0 <= i < |allCourses| && allCourses[i] == c;
    var j :| 0 <= j < |allCourses| && allCourses[j] == r.value;
    assert CourseKey(allCourses[i]) == CourseKey(allCourses[j]);
  }

  function CourseKey(c: Course): int { c.idCourse }

  /**
   * `getEnrolledCourses`: each subscription, in subscription order, mapped
   * to the course with its id; subscriptions whose course is missing drop out.
   */
  function EnrolledCourses(subs: seq<Subscribe>, allCourses: seq<Course>): (r: seq<Course>)
    ensures |r| <= |subs|
    ensures forall c :: c in r ==> c in allCourses && Students.HasSubscription(subs, c)
    ensures (forall s :: s in subs ==> exists c :: c in allCourses && c.idCourse == s.courseId) ==>
              |r| == |subs| &&
              forall i :: 0 <= i < |subs| ==> CourseById(allCourses, subs[i].courseId) == Some(r[i])
  {
    Lists.MapNotNull(subs, (s: Subscribe) => CourseById(allCourses, s.courseId))
  }

  /** A subscription whose course is missing adds nothing to the enrolled list. */
  lemma MissingCourseDropped(subs: seq<Subscribe>, s: Subscribe, allCourses: seq<Course>)
    requires CourseById(allCourses, s.courseId) == None
    ensures EnrolledCourses(subs + [s], allCourses) == EnrolledCourses(subs, allCourses)
  {
    var f := (x: Subscribe) => CourseById(allCourses, x.courseId);
    Lists.MapNotNullAppend(subs, [s], f);
    assert Lists.MapNotNull([s], f) == [];
  }

  /** A further subscription whose course exists appends that course, repeats included. */
  lemma KnownCourseAppended(subs: seq<Subscribe>, s: Subscribe, allCourses: seq<Course>, c: Course)
    requires CourseById(allCourses, s.courseId) == Some(c)
    ensures EnrolledCourses(subs + [s], allCourses) == EnrolledCourses(subs, allCourses) + [c]
  {
    var f := (x: Subscribe) => CourseById(allCourses, x.courseId);
    Lists.MapNotNullAppend(subs, [s], f);
    assert Lists.MapNotNull([s], f) == [c];
  }

  /** Two subscriptions to the same course give the same course twice. */
  lemma EnrolledKeepsDuplicates(subs: seq<Subscribe>, allCourses: seq<Course>, i: int, j: int)
    requires forall s :: s in subs ==> exists c :: c in allCourses && c.idCourse == s.courseId
    requires 0 <= i < |subs| && 0 <= j < |subs| && subs[i].courseId == subs[j].courseId
    ensures |EnrolledCourses(subs, allCourses)| == |subs|
    ensures EnrolledCourses(subs, allCourses)[i] == EnrolledCourses(subs, allCourses)[j]
  {
  }

  /**
   * With unique course ids both implementations list the same courses; only
   * order and multiplicity can differ.
   */
  lemma EnrolledSameCoursesAsStudentView(subs: seq<Subscribe>, allCourses: seq<Course>)
    requires Keyed.Unique(allCourses, CourseKey)
    ensures forall c :: c in EnrolledCourses(subs, allCourses) <==> c in Students.EnrolledCourses(subs, allCourses)
  {
    forall c | c in Students.EnrolledCourses(subs, allCourses)
      ensures c in EnrolledCourses(subs, allCourses)
    {
      var s :| s in subs && s.courseId == c.idCourse;
      CourseByIdUnique(allCourses, c);
      assert ((s: Subscribe) => CourseById(allCourses, s.courseId))(s) == Some(c);
    }
  }

  /** The two implementations can order the same enrolled courses differently. */
  lemma EnrolledOrderDiffers()
    ensures var a := Course(1, "Algebra", 3.0, B1, None);
            var b := Course(2, "Biology", 5.0, B1, None);
            var subs := [Subscribe(7, 2, 0.0), Subscribe(7, 1, 0.0)];
            EnrolledCourses(subs, [a, b]) == [b, a] && Students.EnrolledCourses(subs, [a, b]) == [a, b]
  {
    var a := Course(1, "Algebra", 3.0, B1, None);
    var b := Course(2, "Biology", 5.0, B1, None);
    var subs := [Subscribe(7, 2, 0.0), Subscribe(7, 1, 0.0)];
    assert CourseById([a, b], 2) == Some(b);
    assert CourseById([a, b], 1) == Some(a);
    assert EnrolledCourses(subs, [a, b]) == [b, a];
    assert Students.HasSubscription(subs, a) && Students.HasSubscription(subs, b);
    Lists.FilterAll([a, b], c => Students.HasSubscription(subs, c));
  }

  /**
   * `findSubscribe`: one of the student's subscriptions for the course, or
   * null when there is none.
   */
  function FindSubscribe(rows: seq<Subscribe>, studentId: int, courseId: int): (r: Option<Subscribe>)
    ensures r.Some? ==> r.value in rows && r.value.studentId == studentId && r.value.courseId == courseId
    ensures r.None? <==> forall s :: s in rows ==> !(s.studentId == studentId && s.courseId == courseId)
  {
    var mine := SubscribeDao.ByStudent(rows, studentId);
    var r := Lists.FindFirst(mine, (s: Subscribe) => s.courseId == courseId);
    assert r.None? ==> forall s :: s in mine ==> s.courseId != courseId;
    r
  }

  /** In a table keyed by the pair, `findSubscribe` is the lookup of that pair. */
  lemma FindSubscribeIsPairLookup(rows: seq<Subscribe>, studentId: int, courseId: int)
    requires Keyed.Unique(rows, SubscribeDao.PairKey)
    ensures FindSubscribe(rows, studentId, courseId) == Keyed.Lookup(rows, SubscribeDao.PairKey, (studentId, courseId))
  {
    var r := FindSubscribe(rows, studentId, courseId);
    if r.Some? {
      Keyed.LookupUnique(rows, SubscribeDao.PairKey, r.value);
    }
  }

  class SubscribeViewModel {
    const subscribeRepo: SubscribeDao.SubscribeTable

    constructor (subscribeRepo: SubscribeDao.SubscribeTable)
      ensures this.subscribeRepo == subscribeRepo
    {
      this.subscribeRepo := subscribeRepo;
    }

    /** `insertSubscribe`: hands the entity to the table unchanged. */
    method InsertSubscribe(subscribe: Subscribe)
      requires subscribeRepo.Valid()
      modifies subscribeRepo
      ensures subscribeRepo.Valid()
      ensures forall s :: s in subscribeRepo.rows <==>
                s == subscribe || (s in old(subscribeRepo.rows) && SubscribeDao.PairKey(s) != SubscribeDao.PairKey(subscribe))
    {
      subscribeRepo.Insert(subscribe);
    }

    /** `deleteSubscribe`: hands the entity to the table unchanged. */
    method DeleteSubscribe(subscribe: Subscribe)
      requires subscribeRepo.Valid()
      modifies subscribeRepo
      ensures subscribeRepo.Valid()
      ensures forall s :: s in subscribeRepo.rows <==>
                s in old(subscribeRepo.rows) && SubscribeDao.PairKey(s) != SubscribeDao.PairKey(subscribe)
    {
      subscribeRepo.Delete(subscribe);
    }

    /**
     * `updateSubscribeScore`: stores a copy with the new score; insert-or-replace
     * makes it the pair's only row, so `findSubscribe` then returns it.
     */
    method UpdateSubscribeScore(subscribe: Subscribe, newScore: real)
      requires subscribeRepo.Valid()
      modifies subscribeRepo
      ensures subscribeRepo.Valid()
      ensures FindSubscribe(subscribeRepo.rows, subscribe.studentId, subscribe.courseId)
              == Some(Subscribe(subscribe.studentId, subscribe.courseId, newScore))
      ensures forall s :: s in subscribeRepo.rows && SubscribeDao.PairKey(s) != SubscribeDao.PairKey(subscribe) <==>
                s in old(subscribeRepo.rows) && SubscribeDao.PairKey(s) != SubscribeDao.PairKey(subscribe)
    {
      var updated := subscribe.(score := newScore);
      subscribeRepo.Insert(updated);
      FindSubscribeIsPairLookup(subscribeRepo.rows, subscribe.studentId, subscribe.courseId);
    }
  }
}
