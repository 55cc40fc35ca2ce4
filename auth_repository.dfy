/**
 * `AuthRepository`: login against the student table first, then the
 * teacher table, and registration as a plain insert into one table.
 */
module AuthRepository {
  import opened Wrappers
  import opened Entities
  import StudentDao
  import TeacherDao

  datatype AuthResult = AuthResult(
    userId: int,
    username: string,
    role: UserRole,
    levelOfStudy: Option<LevelCourse>)

  /** The decision `login` makes from the two tables' contents. */
  function Authenticate(students: seq<Student>, teachers: seq<Teacher>, username: string, password: string)
    : (r: Option<AuthResult>)
    // the result always echoes the supplied username
    ensures r.Some? ==> r.value.username == username
    // only the two login roles occur: a student with a level, a teacher without one
    ensures r.Some? ==> || (r.value.role == STUDENT && r.value.levelOfStudy.Some?)
                        || (r.value.role == TEACHER && r.value.levelOfStudy.None?)
  {
    match StudentDao.FindByCredentials(students, username, password)
    case Some(s) => Some(AuthResult(s.idStudent, username, STUDENT, Some(s.levelOfStudy)))
    case None =>
      match TeacherDao.FindByCredentials(teachers, username, password)
      case Some(t) => Some(AuthResult(t.idTeacher, username, TEACHER, None))
      case None => None
  }

  /** A student row with the credentials makes `login` a STUDENT login of some such row, whatever the teacher table holds. */
  lemma AuthenticateStudent(students: seq<Student>, teachers: seq<Teacher>, username: string, password: string)
    requires exists s :: s in students && StudentDao.HasCredentials(s, username, password)
    ensures var r := Authenticate(students, teachers, username, password);
            && r.Some? && r.value.role == STUDENT
            && exists s :: s in students && StudentDao.HasCredentials(s, username, password)
                         && r.value == AuthResult(s.idStudent, username, STUDENT, Some(s.levelOfStudy))
  {
    var found := StudentDao.FindByCredentials(students, username, password);
    assert found.Some?;
  }

  /** With no student match, a teacher row with the credentials makes `login` a TEACHER login without a level. */
  lemma AuthenticateTeacher(students: seq<Student>, teachers: seq<Teacher>, username: string, password: string)
    requires forall s :: s in students ==> !StudentDao.HasCredentials(s, username, password)
    requires exists t :: t in teachers && TeacherDao.HasCredentials(t, username, password)
    ensures var r := Authenticate(students, teachers, username, password);
            && r.Some? && r.value.role == TEACHER
            && exists t :: t in teachers && TeacherDao.HasCredentials(t, username, password)
                         && r.value == AuthResult(t.idTeacher, username, TEACHER, None)
  {
    var found := TeacherDao.FindByCredentials(teachers, username, password);
    assert found.Some?;
  }

  /** `login` returns null exactly when neither table holds the credentials. */
  lemma AuthenticateFails(students: seq<Student>, teachers: seq<Teacher>, username: string, password: string)
    ensures Authenticate(students, teachers, username, password).None? <==>
              && (forall s :: s in students ==> !StudentDao.HasCredentials(s, username, password))
              && (forall t :: t in teachers ==> !TeacherDao.HasCredentials(t, username, password))
  {
  }

  class AuthRepository {
    const studentDao: StudentDao.StudentTable
    const teacherDao: TeacherDao.TeacherTable

    ghost predicate Valid()
      reads this, studentDao, teacherDao
    {
      studentDao.Valid() && teacherDao.Valid()
    }

    constructor (studentDao: StudentDao.StudentTable, teacherDao: TeacherDao.TeacherTable)
      ensures this.studentDao == studentDao && this.teacherDao == teacherDao
    {
      this.studentDao := studentDao;
      this.teacherDao := teacherDao;
    }

    /** `login`: reads both tables and changes neither. */
    method Login(username: string, password: string) returns (r: Option<AuthResult>)
      ensures r == Authenticate(studentDao.rows, teacherDao.rows, username, password)
    {
      var student := studentDao.GetStudentByUsernameAndPassword(username, password);
      if student.Some? {
        return Some(AuthResult(student.value.idStudent, username, STUDENT, Some(student.value.levelOfStudy)));
      }
      var teacher := teacherDao.GetTeacherByUsernameAndPassword(username, password);
      if teacher.Some? {
        return Some(AuthResult(teacher.value.idTeacher, username, TEACHER, None));
      }
      return None;
    }

    /** `registerStudent`: an insert into the student table only. */
    method RegisterStudent(student: Student)
      requires Valid()
      modifies studentDao
      ensures Valid()
      ensures forall s :: s in studentDao.rows <==>
                s == student || (s in old(studentDao.rows) && s.idStudent != student.idStudent)
      ensures unchanged(teacherDao)
    {
      studentDao.Insert(student);
    }

    /** `registerTeacher`: an insert into the teacher table only. */
    method RegisterTeacher(teacher: Teacher) returns (id: int)
      requires Valid()
      modifies teacherDao
      ensures Valid()
      ensures id == TeacherDao.AssignedId(teacher, old(teacherDao.lastId))
      ensures teacherDao.lastId == if old(teacherDao.lastId) < id then id else old(teacherDao.lastId)
      ensures forall t :: t in teacherDao.rows <==>
                t == teacher.(idTeacher := id) || (t in old(teacherDao.rows) && t.idTeacher != id)
      ensures unchanged(studentDao)
    {
      id := teacherDao.Insert(teacher);
    }
  }

  /** The student-first tie-break: with the same credentials in both tables, the student logs in. */
  lemma StudentWinsTie(students: seq<Student>, teachers: seq<Teacher>, s: Student, t: Teacher)
    requires s in students && t in teachers
    requires s.username == t.username && s.password == t.password
    ensures Authenticate(students, teachers, s.username, s.password).Some?
    ensures Authenticate(students, teachers, s.username, s.password).value.role == STUDENT
  {
    assert StudentDao.HasCredentials(s, s.username, s.password);
    AuthenticateStudent(students, teachers, s.username, s.password);
  }
}
