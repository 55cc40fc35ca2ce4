/**
 * The rows of the app's four tables and the enumerations they use. Kotlin
 * `Int` ids become unbounded `int` (the only arithmetic on them is the
 * generated teacher id, `lastId + 1`), `Float` grades and
 * credit weights become `real`, a `java.util.Date` is its millisecond count,
 * and a nullable field is an `Option`.
 */
module Entities {
  import opened Wrappers

  /** The academic levels, in declaration (`entries`) order. */
  datatype LevelCourse = P1 | P2 | P3 | B1 | B2 | B3 | A1 | A2 | A3 | MS | PhD

  const AllLevels: seq<LevelCourse> := [P1, P2, P3, B1, B2, B3, A1, A2, A3, MS, PhD]

  /** The position of a level in `LevelCourse.entries`: every level is listed. */
  function LevelIndex(level: LevelCourse): (i: nat)
    ensures i < |AllLevels| && AllLevels[i] == level
  {
    match level
    case P1 => 0 case P2 => 1 case P3 => 2
    case B1 => 3 case B2 => 4 case B3 => 5
    case A1 => 6 case A2 => 7 case A3 => 8
    case MS => 9 case PhD => 10
  }

  datatype Gender = Male | Female | NotConcerned

  datatype UserRole = STUDENT | TEACHER | ADMIN | NONE

  /** Milliseconds since the epoch, as a `java.util.Date` holds them. */
  type Date = int

  datatype Student = Student(
    idStudent: int,
    username: string,
    password: string,
    lastName: string,
    firstName: string,
    dateOfBirth: Date,
    gender: Gender,
    levelOfStudy: LevelCourse,
    photoUri: Option<string>)

  datatype Teacher = Teacher(
    idTeacher: int,
    username: string,
    password: string,
    lastName: string,
    firstName: string,
    dateOfBirth: Date,
    gender: Gender,
    photoUri: Option<string>)

  datatype Course = Course(
    idCourse: int,
    name: string,
    ects: real,
    level: LevelCourse,
    teacherId: Option<int>)

  /** An enrollment of a student in a course, with its grade. */
  datatype Subscribe = Subscribe(studentId: int, courseId: int, score: real)
}
