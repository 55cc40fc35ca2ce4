/**
 * The `studentsByCourse` join of the teacher's student-list screen: for
 * every course the teacher gives, the students of that course's
 * subscriptions, in subscription order.
 */
module TeacherStudentList {
  import opened Wrappers
  import opened Entities
  import Lists

  /** `subscribes.filter { it.courseId == course.idCourse }`. */
  function CourseSubscriptions(course: Course, subscribes: seq<Subscribe>): (r: seq<Subscribe>)
    ensures forall s :: s in r <==> s in subscribes && s.courseId == course.idCourse
    ensures Lists.Subsequence(r, subscribes)
  {
    Lists.Filter(subscribes, (s: Subscribe) => s.courseId == course.idCourse)
  }

  /** `students.find { it.idStudent == sub.studentId }`. */
  function StudentOf(students: seq<Student>, sub: Subscribe): (r: Option<Student>)
    ensures r.Some? ==> r.value in students && r.value.idStudent == sub.studentId
    ensures r.None? <==> forall st :: st in students ==> st.idStudent != sub.studentId
  {
    Lists.FindFirst(students, (st: Student) => st.idStudent == sub.studentId)
  }

  /** The list one course maps to: its subscriptions' students, unknown students dropped. */
  function Roster(course: Course, subscribes: seq<Subscribe>, students: seq<Student>): (r: seq<Student>)
    ensures |r| <= |CourseSubscriptions(course, subscribes)|
    ensures forall st :: st in r ==>
              st in students
              && exists s :: s in subscribes && s.courseId == course.idCourse && s.studentId == st.idStudent
    ensures (forall s :: s in CourseSubscriptions(course, subscribes) ==>
               exists st :: st in students && st.idStudent == s.studentId) ==>
              var subs := CourseSubscriptions(course, subscribes);
              |r| == |subs| && forall i :: 0 <= i < |subs| ==> StudentOf(students, subs[i]) == Some(r[i])
  {
    var subs := CourseSubscriptions(course, subscribes);
    var r := Lists.MapNotNull(subs, (s: Subscribe) => StudentOf(students, s));
    assert forall s :: s in subs ==> s in subscribes;
    r
  }

  /** `courses.associateWith { ... }`: every course is a key, even one without students. */
  function StudentsByCourse(courses: seq<Course>, subscribes: seq<Subscribe>, students: seq<Student>): (r: map<Course, seq<Student>>)
    ensures r.Keys == set c | c in courses
    ensures forall c :: c in r ==> r[c] == Roster(c, subscribes, students)
  {
    map c | c in courses :: Roster(c, subscribes, students)
  }

  /** A subscription of an unknown student adds nobody. */
  lemma UnknownStudentDropped(course: Course, subscribes: seq<Subscribe>, s: Subscribe, students: seq<Student>)
    requires forall st :: st in students ==> st.idStudent != s.studentId
    ensures Roster(course, subscribes + [s], students) == Roster(course, subscribes, students)
  {
    var p := (x: Subscribe) => x.courseId == course.idCourse;
    Lists.FilterAppend(subscribes, [s], p);
    var f := (x: Subscribe) => StudentOf(students, x);
    Lists.MapNotNullAppend(CourseSubscriptions(course, subscribes), CourseSubscriptions(course, [s]), f);
    assert Lists.MapNotNull(CourseSubscriptions(course, [s]), f) == [];
  }

  /** A subscription to another course leaves this course's roster unchanged. */
  lemma OtherCourseIgnored(course: Course, subscribes: seq<Subscribe>, s: Subscribe, students: seq<Student>)
    requires s.courseId != course.idCourse
    ensures Roster(course, subscribes + [s], students) == Roster(course, subscribes, students)
  {
    var p := (x: Subscribe) => x.courseId == course.idCourse;
    Lists.FilterAppend(subscribes, [s], p);
    assert CourseSubscriptions(course, [s]) == [];
    assert CourseSubscriptions(course, subscribes) + [] == CourseSubscriptions(course, subscribes);
  }

  /** A further subscription to the course of a known student appends that student. */
  lemma KnownStudentAppended(course: Course, subscribes: seq<Subscribe>, s: Subscribe, students: seq<Student>, st: Student)
    requires s.courseId == course.idCourse && StudentOf(students, s) == Some(st)
    ensures Roster(course, subscribes + [s], students) == Roster(course, subscribes, students) + [st]
  {
    var p := (x: Subscribe) => x.courseId == course.idCourse;
    Lists.FilterAppend(subscribes, [s], p);
    assert CourseSubscriptions(course, [s]) == [s];
    var f := (x: Subscribe) => StudentOf(students, x);
    Lists.MapNotNullAppend(CourseSubscriptions(course, subscribes), [s], f);
    assert Lists.MapNotNull([s], f) == [st];
  }
}
