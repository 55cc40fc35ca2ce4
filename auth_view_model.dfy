/**
 * `AuthViewModel`: the session of the signed-in user and the state of the
 * login screen. Each coroutine `launch` runs here as one sequential call.
 */
module AuthViewModel {
  import opened Wrappers
  import opened Entities
  import Auth = AuthRepository
  import TeacherDao

  datatype LoginState = Idle | Loading | Success(authResult: Auth.AuthResult) | Error(message: string)

  const InvalidCredentials: string := "Invalid credentials"

  class AuthViewModel {
    const repo: Auth.AuthRepository
    var currentUserId: Option<int>
    var currentUsername: Option<string>
    var currentUserRole: Option<UserRole>
    var currentUserLevelOfStudy: Option<LevelCourse>
    var loginState: LoginState
    /** Every value `loginState` has held, oldest first. */
    ghost var stateHistory: seq<LoginState>

    /** The four session fields hold the given login result. */
    ghost predicate SessionIs(a: Auth.AuthResult)
      reads this
    {
      && currentUserId == Some(a.userId)
      && currentUsername == Some(a.username)
      && currentUserRole == Some(a.role)
      && currentUserLevelOfStudy == a.levelOfStudy
    }

    /** The session invariant; the tables' own invariant is `repo.Valid()`. */
    ghost predicate Valid()
      reads this
    {
      && stateHistory != [] && stateHistory[|stateHistory| - 1] == loginState
      // the id and the role are set together and cleared together
      && (currentUserId.Some? <==> currentUserRole.Some?)
      // only the two login roles occur, a student with a level, a teacher without one
      && (currentUserRole.Some? ==> currentUserRole.value in {STUDENT, TEACHER})
      && (currentUserRole == Some(STUDENT) ==> currentUserLevelOfStudy.Some?)
      && (currentUserRole == Some(TEACHER) ==> currentUserLevelOfStudy.None?)
      // a successful login state shows the session it created
      && (loginState.Success? ==> SessionIs(loginState.authResult))
    }

    constructor (repo: Auth.AuthRepository)
      ensures Valid() && this.repo == repo
      ensures currentUserId.None? && currentUsername.None? && currentUserRole.None? && currentUserLevelOfStudy.None?
      ensures loginState == Idle && stateHistory == [Idle]
    {
      this.repo := repo;
      currentUserId, currentUsername, currentUserRole, currentUserLevelOfStudy := None, None, None, None;
      loginState := Idle;
      stateHistory := [Idle];
    }

    /** `registerStudent`: a student-table insert; the session is untouched. */
    method RegisterStudent(student: Student)
      requires repo.Valid()
      modifies repo.studentDao
      ensures repo.Valid() && unchanged(this) && unchanged(repo.teacherDao)
      ensures forall s :: s in repo.studentDao.rows <==>
                s == student || (s in old(repo.studentDao.rows) && s.idStudent != student.idStudent)
    {
      repo.RegisterStudent(student);
    }

    /** `registerTeacher`: a teacher-table insert; the session is untouched. */
    method RegisterTeacher(teacher: Teacher)
      requires repo.Valid()
      modifies repo.teacherDao
      ensures repo.Valid() && unchanged(this) && unchanged(repo.studentDao)
      ensures var id := TeacherDao.AssignedId(teacher, old(repo.teacherDao.lastId));
                repo.teacherDao.lastId == (if old(repo.teacherDao.lastId) < id then id else old(repo.teacherDao.lastId))
                && forall t :: t in repo.teacherDao.rows <==>
                     t == teacher.(idTeacher := id) || (t in old(repo.teacherDao.rows) && t.idTeacher != id)
    {
      var _ := repo.RegisterTeacher(teacher);
    }

    /**
     * `login`: Loading first, then Success with the session copied from the
     * result, or Error with the session left as it was. No table changes.
     */
    method Login(username: string, password: string)
      requires Valid()
      modifies this
      ensures Valid()
      ensures stateHistory == old(stateHistory) + [Loading, loginState]
      ensures var result := Auth.Authenticate(repo.studentDao.rows, repo.teacherDao.rows, username, password);
              result.Some? ==> loginState == Success(result.value) && SessionIs(result.value)
      ensures var result := Auth.Authenticate(repo.studentDao.rows, repo.teacherDao.rows, username, password);
              result.None? ==>
                && loginState == Error(InvalidCredentials)
                && currentUserId == old(currentUserId) && currentUsername == old(currentUsername)
                && currentUserRole == old(currentUserRole)
                && currentUserLevelOfStudy == old(currentUserLevelOfStudy)
    {
      loginState := Loading;
      stateHistory := stateHistory + [Loading];
      var result := repo.Login(username, password);
      ApplyLoginResult(result);
    }

    /** The branch of `login` that runs once the repository has answered. */
    method ApplyLoginResult(result: Option<Auth.AuthResult>)
      requires Valid() && loginState == Loading
      requires result.Some? ==> || (result.value.role == STUDENT && result.value.levelOfStudy.Some?)
                                || (result.value.role == TEACHER && result.value.levelOfStudy.None?)
      modifies this
      ensures Valid()
      ensures stateHistory == old(stateHistory) + [loginState]
      ensures result.Some? ==> loginState == Success(result.value) && SessionIs(result.value)
      ensures result.None? ==>
                && loginState == Error(InvalidCredentials)
                && currentUserId == old(currentUserId) && currentUsername == old(currentUsername)
                && currentUserRole == old(currentUserRole)
                && currentUserLevelOfStudy == old(currentUserLevelOfStudy)
    {
      if result.Some? {
        currentUserId := Some(result.value.userId);
        currentUsername := Some(result.value.username);
        currentUserRole := Some(result.value.role);
        currentUserLevelOfStudy := result.value.levelOfStudy;
        loginState := Success(result.value);
      } else {
        loginState := Error(InvalidCredentials);
      }
      stateHistory := stateHistory + [loginState];
    }

    /** `logout`: clears the id and the role only; the username and level stay behind. */
    method Logout()
      requires Valid()
      modifies this
      ensures Valid()
      ensures currentUserId.None? && currentUserRole.None? && loginState == Idle
      ensures currentUsername == old(currentUsername) && currentUserLevelOfStudy == old(currentUserLevelOfStudy)
      ensures stateHistory == old(stateHistory) + [Idle]
    {
      currentUserId := None;
      currentUserRole := None;
      loginState := Idle;
      stateHistory := stateHistory + [Idle];
    }
  }
}
