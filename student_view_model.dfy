/**
 * `StudentViewModel`: the student's enrolled and available course lists
 * (the bodies of its two `combine` calls, over one snapshot of each input
 * list) and `enrollStudent`.
 */
module StudentViewModel {
  import opened Entities
  import Lists
  import SubscribeDao

  /**
   * `getCoursesByLevel(level.value)`, the course list the view model is fed
   * for the student's level. The course DAO is not part of this model; the
   * query returns exactly the courses of that level.
   */
  function CoursesAtLevel(courses: seq<Course>, level: LevelCourse): (r: seq<Course>)
    ensures forall c :: c in r <==> c in courses && c.level == level
    ensures Lists.Subsequence(r, courses)
  {
    Lists.Filter(courses, (c: Course) => c.level == level)
  }

  /** `subscribes.any { it.courseId == course.idCourse }`. */
  predicate HasSubscription(subscribes: seq<Subscribe>, course: Course)
  {
    exists s :: s in subscribes && s.courseId == course.idCourse
  }

  /**
   * `getEnrolledCourses`: the courses of the course list that some
   * subscription points at, in course-list order, each as often as in the
   * course list, however many subscriptions point at it.
   */
  function EnrolledCourses(subscribes: seq<Subscribe>, courses: seq<Course>): (r: seq<Course>)
    ensures forall c :: c in r <==> c in courses && HasSubscription(subscribes, c)
    ensures forall c :: multiset(r)[c] == if HasSubscription(subscribes, c) then multiset(courses)[c] else 0
    ensures Lists.Subsequence(r, courses)
  {
    Lists.Filter(courses, c => HasSubscription(subscribes, c))
  }

  /**
   * `getAvailableCourses`: the courses of the level's list that no
   * subscription of the student points at, in level-list order.
   */
  function AvailableCourses(levelCourses: seq<Course>, subscribes: seq<Subscribe>): (r: seq<Course>)
    ensures forall c :: c in r <==> c in levelCourses && !HasSubscription(subscribes, c)
    ensures forall c :: multiset(r)[c] == if HasSubscription(subscribes, c) then 0 else multiset(levelCourses)[c]
    ensures Lists.Subsequence(r, levelCourses)
  {
    Lists.Filter(levelCourses, c => !HasSubscription(subscribes, c))
  }

  /** For the same subscription snapshot no course is both enrolled and available. */
  lemma EnrolledAvailableDisjoint(subscribes: seq<Subscribe>, courses: seq<Course>, levelCourses: seq<Course>)
    ensures forall c :: c in EnrolledCourses(subscribes, courses) ==> c !in AvailableCourses(levelCourses, subscribes)
  {
  }

  /** Fed with `getCoursesByLevel(level)`, every available course has that level. */
  lemma AvailableHaveLevel(courses: seq<Course>, subscribes: seq<Subscribe>, level: LevelCourse)
    ensures forall c :: c in AvailableCourses(CoursesAtLevel(courses, level), subscribes) <==>
              c in courses && c.level == level && !HasSubscription(subscribes, c)
  {
  }

  /** Extra copies of existing subscriptions change nothing in the enrolled list. */
  lemma EnrolledIgnoresDuplicates(subscribes: seq<Subscribe>, extra: seq<Subscribe>, courses: seq<Course>)
    requires forall s :: s in extra ==> s in subscribes
    ensures EnrolledCourses(subscribes + extra, courses) == EnrolledCourses(subscribes, courses)
  {
    forall c ensures HasSubscription(subscribes + extra, c) == HasSubscription(subscribes, c) {
      if HasSubscription(subscribes + extra, c) {
        var s :| s in subscribes + extra && s.courseId == c.idCourse;
        assert s in subscribes;
      }
    }
    Lists.FilterCongruent(courses, c => HasSubscription(subscribes + extra, c), c => HasSubscription(subscribes, c));
  }

  class StudentViewModel {
    const subscribeRepo: SubscribeDao.SubscribeTable

    constructor (subscribeRepo: SubscribeDao.SubscribeTable)
      ensures this.subscribeRepo == subscribeRepo
    {
      this.subscribeRepo := subscribeRepo;
    }

    /** `enrollStudent`: stores the pair with the initial score 0, replacing any row of that pair. */
    method EnrollStudent(studentId: int, courseId: int)
      requires subscribeRepo.Valid()
      modifies subscribeRepo
      ensures subscribeRepo.Valid()
      ensures forall s :: s in subscribeRepo.rows <==>
                s == Subscribe(studentId, courseId, 0.0)
                || (s in old(subscribeRepo.rows) && (s.studentId, s.courseId) != (studentId, courseId))
    {
      subscribeRepo.Insert(Subscribe(studentId, courseId, 0.0));
    }
  }
}
