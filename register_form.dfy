/**
 * The registration form: its remembered fields, the register button's
 * guard, and the role dispatch that registers either a student or a
 * teacher through the session's view model.
 */
module RegisterForm {
  import opened Wrappers
  import opened Entities
  import opened Text
  import TeacherDao
  import AuthViewModel

  /** The register guard: matching passwords and non-blank username and names. The password itself may be blank. */
  predicate RegisterAllowed(password: string, confirmPassword: string, username: string, firstName: string, lastName: string): (r: bool)
    ensures r ==> password == confirmPassword && username != [] && firstName != [] && lastName != []
    ensures password != confirmPassword ==> !r
  {
    password == confirmPassword && !IsBlank(username) && !IsBlank(firstName) && !IsBlank(lastName)
  }

  /** An empty password passes when confirmed; a blank username or mismatched confirmation does not. */
  lemma GuardExamples()
    ensures RegisterAllowed("", "", "ann", "Ann", "Lee")
    ensures !RegisterAllowed("", "", " ", "Ann", "Lee")
    ensures !RegisterAllowed("secret", "Secret", "ann", "Ann", "Lee")
  {
    assert !IsWhitespace("ann"[0]) && !IsWhitespace("Ann"[0]) && !IsWhitespace("Lee"[0]);
    assert "secret"[0] != "Secret"[0];
  }

  class RegisterForm {
    const authViewModel: AuthViewModel.AuthViewModel
    var firstName: string
    var lastName: string
    var username: string
    var password: string
    var confirmPassword: string
    var selectedRole: UserRole
    var gender: Gender
    var levelOfStudy: LevelCourse
    /** How many times `onRegisterSuccess` has been called. */
    var successCount: nat

    /** The first composition: empty texts, role STUDENT, gender Male, level P1. */
    constructor (authViewModel: AuthViewModel.AuthViewModel)
      ensures this.authViewModel == authViewModel
      ensures firstName == "" && lastName == "" && username == "" && password == "" && confirmPassword == ""
      ensures selectedRole == STUDENT && gender == Male && levelOfStudy == P1 && successCount == 0
    {
      this.authViewModel := authViewModel;
      firstName, lastName, username, password, confirmPassword := "", "", "", "", "";
      selectedRole, gender, levelOfStudy := STUDENT, Male, P1;
      successCount := 0;
    }

    /**
     * The register button. When the guard fails nothing is registered and
     * `onRegisterSuccess` is not called. Otherwise role STUDENT registers a
     * student with the entered fields, the selected level and no photo; any
     * other role registers a teacher with the entered fields and id 0, which
     * the table replaces by the next generated id. Exactly one table changes,
     * the session does not, and `onRegisterSuccess` is called once. The
     * student's id and the date of birth (the current time in the source)
     * are inputs.
     */
    method Submit(studentId: int, dateOfBirth: Date)
      requires authViewModel.repo.Valid()
      modifies this, authViewModel.repo.studentDao, authViewModel.repo.teacherDao
      ensures authViewModel.repo.Valid() && unchanged(authViewModel)
      ensures firstName == old(firstName) && lastName == old(lastName) && username == old(username)
      ensures password == old(password) && confirmPassword == old(confirmPassword)
      ensures selectedRole == old(selectedRole) && gender == old(gender) && levelOfStudy == old(levelOfStudy)
      ensures !RegisterAllowed(password, confirmPassword, username, firstName, lastName) ==>
                unchanged(authViewModel.repo.studentDao) && unchanged(authViewModel.repo.teacherDao)
                && successCount == old(successCount)
      ensures RegisterAllowed(password, confirmPassword, username, firstName, lastName) ==>
                successCount == old(successCount) + 1
      ensures RegisterAllowed(password, confirmPassword, username, firstName, lastName) && selectedRole == STUDENT ==>
                var student := Student(studentId, username, password, lastName, firstName, dateOfBirth, gender, levelOfStudy, None);
                unchanged(authViewModel.repo.teacherDao)
                && forall s :: s in authViewModel.repo.studentDao.rows <==>
                     s == student || (s in old(authViewModel.repo.studentDao.rows) && s.idStudent != studentId)
      ensures RegisterAllowed(password, confirmPassword, username, firstName, lastName) && selectedRole != STUDENT ==>
                var id := old(authViewModel.repo.teacherDao.lastId) + 1;
                var teacher := Teacher(id, username, password, lastName, firstName, dateOfBirth, gender, None);
                unchanged(authViewModel.repo.studentDao)
                && authViewModel.repo.teacherDao.lastId == id
                && forall t :: t in authViewModel.repo.teacherDao.rows <==>
                     t == teacher || (t in old(authViewModel.repo.teacherDao.rows) && t.idTeacher != id)
    {
      if RegisterAllowed(password, confirmPassword, username, firstName, lastName) {
        if selectedRole == STUDENT {
          var student := Student(studentId, username, password, lastName, firstName, dateOfBirth, gender, levelOfStudy, None);
          authViewModel.RegisterStudent(student);
        } else {
          var teacher := Teacher(0, username, password, lastName, firstName, dateOfBirth, gender, None);
          authViewModel.RegisterTeacher(teacher);
        }
        successCount := successCount + 1;
      }
    }
  }
}
