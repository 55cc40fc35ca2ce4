# Course app core, modelled in Dafny

This project models the logic of a small Android app for students, teachers,
courses and enrollments. It covers:

- the student and teacher tables behind the Room DAOs;
- login and registration in `AuthRepository`;
- the session state machine of `AuthViewModel`;
- the enrolled-course and available-course joins of the two enrollment view models, plus their writes;
- the per-level ECTS-weighted grade summary;
- the teacher's per-course student roster;
- the save guards of the course, subscription and registration forms.

Each part takes the form of its source:

- **Tables** (`StudentDao.StudentTable`, `TeacherDao.TeacherTable`, `SubscribeDao.SubscribeTable`) are classes over a sequence of rows. They have `modifies` frames and a key-uniqueness invariant `Valid()`.
  - `@Insert(onConflict = REPLACE)` is `Keyed.Upsert`: drop the row with the same key, then add the new one.
  - `@Delete` is `Keyed.Without`.
  - `WHERE … LIMIT 1` is some matching row: the contracts promise a match, not which one.
  - `ORDER BY` is SQLite's BINARY collation: code-point order on strings (`Ordering.TextLe`), compared column by column (`Ordering.KeyLe`). It is realised by an insertion sort proved to return a sorted permutation.
- **Teacher ids** are generated when they are 0 (`autoGenerate`). The table keeps the largest id handed out (`lastId`) and gives the next one.
- **`AuthViewModel`, the form screens and the view models' writes** are classes whose methods reassign fields step by step.
  - A ghost `stateHistory` records every value `loginState` takes. This lets `login` be stated as "Loading, then the outcome".
  - Form callbacks (`onSaved`, `onRegisterSuccess`) are modelled as counters.
  - The course form's `insertCourse` calls are an append-only log of inserted courses.
- **Joins and summaries** (the `combine` bodies, `studentsByCourse`, `levelGrades`) are functions of list snapshots. They are built from Kotlin's `filter`, `find`, `associateBy` lookup (last match wins), `mapNotNull` and `sumOf`, proved once in `Lists`.
- **Numbers and text.**
  - Floats are `real`. `toFloatOrNull` is a parameter `parse: string -> Option<real>`, so it yields only finite values (see "## Left out" for NaN and infinity).
  - Dates are a plain `int` (a millisecond count).
  - `isBlank` is Kotlin's rule over an explicit Unicode whitespace set (`Text.IsWhitespace`).

Some choices follow from how the code uses its data:

- **Enrollment scores are plain numbers.** `StudentViewModel` enrolls with `score = 0f` and the grade screen multiplies the score, so a score is a plain `real`.
- **The grade formula is ECTS-weighted.** For (3 ECTS, score 10) and (5 ECTS, score 16) it gives (30 + 80) / 8 = 13.75 (`GradeSummary.WorkedExample`).
- **The richer field set is used.** `StudentEntity.kt` lacks `username`, `password` and `levelOfStudy`, but the login and registration code uses them, so `Entities.Student` has them. The student credential query is shaped like the teacher one.
- **The course form's field names are the entity's.** The form's `nameCourse`, `ectsCourse` and `levelCourse` are the entity's `name`, `ects` and `level`.

Two behaviours of the code are worth knowing:

- **`nameError` is never set.** The course form declares and displays it, but no handler sets it, so a blank-name save silently does nothing (`CourseForm.CourseForm.Save` leaves it unchanged).
- **The two enrollment joins disagree on order.** The student view model lists enrolled courses in course-list order, each as often as it appears in the course list, however many subscriptions point at it. The subscription view model lists them in subscription order, once per subscription. `SubscribeViewModel.EnrolledOrderDiffers` exhibits the difference, and `SubscribeViewModel.EnrolledSameCoursesAsStudentView` proves both give the same set when course ids are unique.

## Model

| member | source | states |
|---|---|---|
| StudentDao.StudentTable.GetAllStudents | app/scrudstudents/src/main/java/com/tumme/scrudstudents/data/local/dao/StudentDao.kt:33-34 | the result is a permutation of the rows (multiset equality), ordered by (lastName, firstName) in BINARY collation |
| StudentDao.StudentTable.Insert | app/scrudstudents/src/main/java/com/tumme/scrudstudents/data/local/dao/StudentDao.kt:46-47 | REPLACE: afterwards the rows are the new student plus the old rows with other ids, ids stay unique, and looking up its id returns the student |
| StudentDao.StudentTable.Delete | app/scrudstudents/src/main/java/com/tumme/scrudstudents/data/local/dao/StudentDao.kt:57-58 | the rows become the old rows whose id differs from the entity's; ids stay unique |
| StudentDao.StudentTable.GetStudentById | app/scrudstudents/src/main/java/com/tumme/scrudstudents/data/local/dao/StudentDao.kt:70-71 | a row with that id, and null exactly when no row has it |
| StudentDao.StudentTable.GetStudentByUsernameAndPassword | app/scrudstudents/src/main/java/com/tumme/scrudstudents/data/repository/AuthRepository.kt:34 | a row whose username and password both equal the arguments, null exactly when none matches |
| StudentDao.FindByCredentials | app/scrudstudents/src/main/java/com/tumme/scrudstudents/data/repository/AuthRepository.kt:34 | a row with both credentials; null iff no row has them |
| StudentDao.GetByIdAfterInsert | app/scrudstudents/src/main/java/com/tumme/scrudstudents/data/local/dao/StudentDao.kt:46-47 | after insert(s), lookup of s's id returns s and every other id reads as before |
| StudentDao.InsertTwice | app/scrudstudents/src/main/java/com/tumme/scrudstudents/data/local/dao/StudentDao.kt:46-47 | inserting the same student twice equals inserting it once and leaves exactly one row with its id |
| TeacherDao.TeacherTable.GetAllTeachers | app/scrudstudents/src/main/java/com/tumme/scrudstudents/data/local/dao/TeacherDao.kt:14-15 | a permutation of the rows ordered by firstName in BINARY collation |
| TeacherDao.AssignedId | app/scrudstudents/src/main/java/com/tumme/scrudstudents/data/local/model/TeacherEntity.kt:9-10 | a non-zero id is kept; id 0 becomes an id larger than every id handed out so far |
| TeacherDao.TeacherTable.Insert | app/scrudstudents/src/main/java/com/tumme/scrudstudents/data/local/dao/TeacherDao.kt:20-21 | REPLACE on the assigned id: the stored row is the teacher with that id, rows with other ids are kept, a generated id collides with no old row, and lastId tracks the largest id |
| TeacherDao.TeacherTable.Delete | app/scrudstudents/src/main/java/com/tumme/scrudstudents/data/local/dao/TeacherDao.kt:26-27 | removes only the row with the teacher's id; lastId is kept |
| TeacherDao.TeacherTable.GetTeacherById | app/scrudstudents/src/main/java/com/tumme/scrudstudents/data/local/dao/TeacherDao.kt:32-33 | the row with that id, null exactly when none has it |
| TeacherDao.TeacherTable.GetTeacherByUsernameAndPassword | app/scrudstudents/src/main/java/com/tumme/scrudstudents/data/local/dao/TeacherDao.kt:43-44 | a row with both credentials, null exactly when none matches |
| TeacherDao.FindByCredentials | app/scrudstudents/src/main/java/com/tumme/scrudstudents/data/local/dao/TeacherDao.kt:43-44 | a row with both credentials; null iff none |
| TeacherDao.AutoIdIsFresh | app/scrudstudents/src/main/java/com/tumme/scrudstudents/data/local/model/TeacherEntity.kt:9-10 | an id-0 insert gets an id no row has, so it adds a row instead of replacing one |
| SubscribeDao.ByStudent | app/scrudstudents/src/main/java/com/tumme/scrudstudents/ui/viewmodel/SubscribeViewModel.kt:36-37 | exactly the rows of that student, in table order |
| StudentViewModel.CoursesAtLevel | app/scrudstudents/src/main/java/com/tumme/scrudstudents/ui/viewmodel/StudentViewModel.kt:30 | exactly the courses of that level, in order |
| SubscribeDao.SubscribeTable.Insert | app/scrudstudents/src/main/java/com/tumme/scrudstudents/ui/viewmodel/SubscribeViewModel.kt:57 | REPLACE on the (studentId, courseId) pair; looking the pair up returns the new row |
| SubscribeDao.SubscribeTable.Delete | app/scrudstudents/src/main/java/com/tumme/scrudstudents/ui/viewmodel/SubscribeViewModel.kt:45 | removes the row of that pair only |
| SubscribeDao.ReEnrollReplacesScore | app/scrudstudents/src/main/java/com/tumme/scrudstudents/ui/viewmodel/SubscribeViewModel.kt:57 | two inserts for one pair leave one row for it, holding the second score |
| AuthRepository.Authenticate | app/scrudstudents/src/main/java/com/tumme/scrudstudents/data/repository/AuthRepository.kt:20-25 | a result echoes the supplied username and is a STUDENT with a level or a TEACHER without one |
| AuthRepository.AuthenticateStudent | app/scrudstudents/src/main/java/com/tumme/scrudstudents/data/repository/AuthRepository.kt:34-37 | if a student matches, login returns AuthResult(id, username, STUDENT, level) of a matching student, whatever the teacher table holds |
| AuthRepository.AuthenticateTeacher | app/scrudstudents/src/main/java/com/tumme/scrudstudents/data/repository/AuthRepository.kt:40-43 | with no student match and a teacher match, login returns AuthResult(id, username, TEACHER, null) of a matching teacher |
| AuthRepository.AuthenticateFails | app/scrudstudents/src/main/java/com/tumme/scrudstudents/data/repository/AuthRepository.kt:45 | login returns null iff neither table holds the credentials |
| AuthRepository.StudentWinsTie | app/scrudstudents/src/main/java/com/tumme/scrudstudents/data/repository/AuthRepository.kt:33-43 | with the same credentials in both tables the login is a STUDENT login |
| AuthRepository.AuthRepository.Login | app/scrudstudents/src/main/java/com/tumme/scrudstudents/data/repository/AuthRepository.kt:32-46 | returns the two-step decision over the current tables and modifies nothing |
| AuthRepository.AuthRepository.RegisterStudent | app/scrudstudents/src/main/java/com/tumme/scrudstudents/data/repository/AuthRepository.kt:52-54 | a REPLACE insert into the student table; the teacher table is unchanged |
| AuthRepository.AuthRepository.RegisterTeacher | app/scrudstudents/src/main/java/com/tumme/scrudstudents/data/repository/AuthRepository.kt:60-62 | a REPLACE insert with the assigned id into the teacher table; the student table is unchanged |
| AuthViewModel.AuthViewModel.constructor | app/scrudstudents/src/main/java/com/tumme/scrudstudents/ui/viewmodel/AuthViewModel.kt:23-30 | all four session fields null and loginState Idle |
| AuthViewModel.AuthViewModel.RegisterStudent | app/scrudstudents/src/main/java/com/tumme/scrudstudents/ui/viewmodel/AuthViewModel.kt:33-37 | the student table gains the student; session fields, loginState and the teacher table are unchanged |
| AuthViewModel.AuthViewModel.RegisterTeacher | app/scrudstudents/src/main/java/com/tumme/scrudstudents/ui/viewmodel/AuthViewModel.kt:39-43 | the teacher table gains the teacher under its assigned id; session, loginState and the student table are unchanged |
| AuthViewModel.AuthViewModel.Login | app/scrudstudents/src/main/java/com/tumme/scrudstudents/ui/viewmodel/AuthViewModel.kt:48-63 | loginState passes through Loading and then becomes Success(result) with the four session fields copied from it, or Error("Invalid credentials") with the session unchanged; no table changes; the session invariant holds |
| AuthViewModel.AuthViewModel.ApplyLoginResult | app/scrudstudents/src/main/java/com/tumme/scrudstudents/ui/viewmodel/AuthViewModel.kt:52-61 | the branch after the repository answers: copy the result and Success, or Error and the session unchanged |
| AuthViewModel.AuthViewModel.Logout | app/scrudstudents/src/main/java/com/tumme/scrudstudents/ui/viewmodel/AuthViewModel.kt:65-69 | id and role become null and loginState Idle; username and level stay as they were |
| StudentViewModel.EnrolledCourses | app/scrudstudents/src/main/java/com/tumme/scrudstudents/ui/viewmodel/StudentViewModel.kt:23-26 | exactly the courses some subscription points at (`HasSubscription`, the `any` test), each as often as in the course list (a subsequence of it), however many subscriptions point at it |
| StudentViewModel.AvailableCourses | app/scrudstudents/src/main/java/com/tumme/scrudstudents/ui/viewmodel/StudentViewModel.kt:30-34 | exactly the level list's courses without a subscription (`!HasSubscription`), in level-list order |
| StudentViewModel.EnrolledAvailableDisjoint | app/scrudstudents/src/main/java/com/tumme/scrudstudents/ui/viewmodel/StudentViewModel.kt:21-35 | for one subscription snapshot no course is both enrolled and available |
| StudentViewModel.AvailableHaveLevel | app/scrudstudents/src/main/java/com/tumme/scrudstudents/ui/viewmodel/StudentViewModel.kt:29-35 | fed with the level query, available courses are exactly the courses of that level without a subscription |
| StudentViewModel.EnrolledIgnoresDuplicates | app/scrudstudents/src/main/java/com/tumme/scrudstudents/ui/viewmodel/StudentViewModel.kt:24-26 | repeated subscriptions leave the enrolled list unchanged |
| StudentViewModel.StudentViewModel.EnrollStudent | app/scrudstudents/src/main/java/com/tumme/scrudstudents/ui/viewmodel/StudentViewModel.kt:37-45 | stores Subscribe(studentId, courseId, 0) replacing the pair's row; other pairs unchanged |
| SubscribeViewModel.AvailableCourses | app/scrudstudents/src/main/java/com/tumme/scrudstudents/ui/viewmodel/SubscribeViewModel.kt:61-65 | exactly the courses of the level whose id is not in `EnrolledIds` (the student's subscribed course ids), in course-list order |
| SubscribeViewModel.MembershipTestsAgree | app/scrudstudents/src/main/java/com/tumme/scrudstudents/ui/viewmodel/SubscribeViewModel.kt:63-64 | the student view model's `any` test and this view model's id-set test agree on every course |
| SubscribeViewModel.AvailableAgreesWithStudentView | app/scrudstudents/src/main/java/com/tumme/scrudstudents/ui/viewmodel/SubscribeViewModel.kt:61-65 | equals the student view model's available list computed from the level query |
| SubscribeViewModel.CourseById | app/scrudstudents/src/main/java/com/tumme/scrudstudents/ui/viewmodel/SubscribeViewModel.kt:69 | the associateBy lookup: a course with that id, null iff none has it |
| SubscribeViewModel.EnrolledCourses | app/scrudstudents/src/main/java/com/tumme/scrudstudents/ui/viewmodel/SubscribeViewModel.kt:67-71 | no longer than the subscriptions; every course exists and is subscribed; when every course exists, one course per subscription in subscription order |
| SubscribeViewModel.MissingCourseDropped | app/scrudstudents/src/main/java/com/tumme/scrudstudents/ui/viewmodel/SubscribeViewModel.kt:70 | a further subscription whose course id matches no course leaves the enrolled list unchanged |
| SubscribeViewModel.KnownCourseAppended | app/scrudstudents/src/main/java/com/tumme/scrudstudents/ui/viewmodel/SubscribeViewModel.kt:70 | a further subscription whose course exists appends that course to the enrolled list |
| SubscribeViewModel.EnrolledKeepsDuplicates | app/scrudstudents/src/main/java/com/tumme/scrudstudents/ui/viewmodel/SubscribeViewModel.kt:70 | two subscriptions to one course yield that course twice |
| SubscribeViewModel.EnrolledSameCoursesAsStudentView | app/scrudstudents/src/main/java/com/tumme/scrudstudents/ui/viewmodel/SubscribeViewModel.kt:67-71 | with unique course ids, the same courses as the student view model's join |
| SubscribeViewModel.EnrolledOrderDiffers | app/scrudstudents/src/main/java/com/tumme/scrudstudents/ui/viewmodel/SubscribeViewModel.kt:67-71 | a concrete snapshot where the two joins list the same courses in opposite orders |
| SubscribeViewModel.FindSubscribe | app/scrudstudents/src/main/java/com/tumme/scrudstudents/ui/viewmodel/SubscribeViewModel.kt:49-50 | a row of that student and course, null iff there is none |
| SubscribeViewModel.FindSubscribeIsPairLookup | app/scrudstudents/src/main/java/com/tumme/scrudstudents/ui/viewmodel/SubscribeViewModel.kt:49-50 | in a pair-keyed table findSubscribe is the lookup of the pair |
| SubscribeViewModel.SubscribeViewModel.InsertSubscribe | app/scrudstudents/src/main/java/com/tumme/scrudstudents/ui/viewmodel/SubscribeViewModel.kt:39-42 | the entity is stored unchanged, replacing its pair's row |
| SubscribeViewModel.SubscribeViewModel.DeleteSubscribe | app/scrudstudents/src/main/java/com/tumme/scrudstudents/ui/viewmodel/SubscribeViewModel.kt:44-47 | the entity's pair is removed, nothing else |
| SubscribeViewModel.SubscribeViewModel.UpdateSubscribeScore | app/scrudstudents/src/main/java/com/tumme/scrudstudents/ui/viewmodel/SubscribeViewModel.kt:55-59 | afterwards findSubscribe for the pair returns the copy with the new score; other pairs' rows are unchanged |
| GradeSummary.CountedPair | app/scrudstudents/src/main/java/com/tumme/scrudstudents/ui/screens/student/StudentFinalGradeSummaryScreen.kt:29 | a course with the subscription's id and the level paired with its score, null iff no such course |
| GradeSummary.LevelPairs | app/scrudstudents/src/main/java/com/tumme/scrudstudents/ui/screens/student/StudentFinalGradeSummaryScreen.kt:28-30 | every counted pair is a course of that level with a subscription carrying its id and score; no more pairs than subscriptions |
| GradeSummary.TotalEcts | app/scrudstudents/src/main/java/com/tumme/scrudstudents/ui/screens/student/StudentFinalGradeSummaryScreen.kt:32 | 0 for no pairs; non-negative when every counted ECTS is |
| GradeSummary.Points | app/scrudstudents/src/main/java/com/tumme/scrudstudents/ui/screens/student/StudentFinalGradeSummaryScreen.kt:33 | non-negative for non-negative ECTS and score; 0 when either is 0 |
| GradeSummary.WeightedSum | app/scrudstudents/src/main/java/com/tumme/scrudstudents/ui/screens/student/StudentFinalGradeSummaryScreen.kt:33 | 0 for no pairs; non-negative when every ECTS and score is |
| GradeSummary.Average | app/scrudstudents/src/main/java/com/tumme/scrudstudents/ui/screens/student/StudentFinalGradeSummaryScreen.kt:35 | null iff the total ECTS is not positive, otherwise the value times the total is the weighted sum |
| GradeSummary.LevelGrades | app/scrudstudents/src/main/java/com/tumme/scrudstudents/ui/screens/student/StudentFinalGradeSummaryScreen.kt:27-37 | eleven entries, one per level in enumeration order, each holding that level's average |
| GradeSummary.Summaries | app/scrudstudents/src/main/java/com/tumme/scrudstudents/ui/screens/student/StudentFinalGradeSummaryScreen.kt:27-37 | one entry per given level, in order, each paired with its level's average |
| GradeSummary.NoCountedCourseNoGrade | app/scrudstudents/src/main/java/com/tumme/scrudstudents/ui/screens/student/StudentFinalGradeSummaryScreen.kt:35-36 | a level without counted courses gets null |
| GradeSummary.UnmatchedSubscriptionIgnored | app/scrudstudents/src/main/java/com/tumme/scrudstudents/ui/screens/student/StudentFinalGradeSummaryScreen.kt:28-30 | a subscription with no course of its id at the level changes nothing at that level |
| GradeSummary.LevelPairsSnoc | app/scrudstudents/src/main/java/com/tumme/scrudstudents/ui/screens/student/StudentFinalGradeSummaryScreen.kt:28-30 | a subscription with a course at the level appends its (course, score) pair |
| GradeSummary.TotalWeightedSnoc | app/scrudstudents/src/main/java/com/tumme/scrudstudents/ui/screens/student/StudentFinalGradeSummaryScreen.kt:32-33 | a further pair adds its ECTS to totalEcts and ECTS times score to weightedSum |
| GradeSummary.WeightedSumBetween | app/scrudstudents/src/main/java/com/tumme/scrudstudents/ui/screens/student/StudentFinalGradeSummaryScreen.kt:32-33 | with non-negative ECTS and scores in [lo, hi], lo·total ≤ weighted sum ≤ hi·total |
| GradeSummary.AverageBetween | app/scrudstudents/src/main/java/com/tumme/scrudstudents/ui/screens/student/StudentFinalGradeSummaryScreen.kt:35 | with non-negative ECTS and scores in [lo, hi] the average lies in [lo, hi] |
| GradeSummary.WorkedExample | app/scrudstudents/src/main/java/com/tumme/scrudstudents/ui/screens/student/StudentFinalGradeSummaryScreen.kt:32-35 | (3, 10) and (5, 16) at B1 give 13.75; P1 gets null |
| TeacherStudentList.CourseSubscriptions | app/scrudstudents/src/main/java/com/tumme/scrudstudents/ui/screens/teacher/TeacherStudentListScreen.kt:35 | exactly the subscriptions with the course's id, in order |
| TeacherStudentList.StudentOf | app/scrudstudents/src/main/java/com/tumme/scrudstudents/ui/screens/teacher/TeacherStudentListScreen.kt:36 | a student with the subscription's student id, null iff none |
| TeacherStudentList.Roster | app/scrudstudents/src/main/java/com/tumme/scrudstudents/ui/screens/teacher/TeacherStudentListScreen.kt:35-37 | each listed student is known and has a subscription to the course; no longer than the course's subscriptions; when every student of the course's subscriptions is known, one per subscription in subscription order, each the `find` result for its subscription |
| TeacherStudentList.StudentsByCourse | app/scrudstudents/src/main/java/com/tumme/scrudstudents/ui/screens/teacher/TeacherStudentListScreen.kt:34-38 | the keys are exactly the teacher's courses, each mapped to its roster |
| TeacherStudentList.UnknownStudentDropped | app/scrudstudents/src/main/java/com/tumme/scrudstudents/ui/screens/teacher/TeacherStudentListScreen.kt:35-37 | a subscription of an unknown student adds nobody |
| TeacherStudentList.KnownStudentAppended | app/scrudstudents/src/main/java/com/tumme/scrudstudents/ui/screens/teacher/TeacherStudentListScreen.kt:35-37 | a further subscription of a known student appends that student, duplicates included |
| TeacherStudentList.OtherCourseIgnored | app/scrudstudents/src/main/java/com/tumme/scrudstudents/ui/screens/teacher/TeacherStudentListScreen.kt:35 | a subscription to another course leaves the roster unchanged |
| CourseForm.CanSaveMeansPositive | app/scrudstudents/src/main/java/com/tumme/scrudstudents/ui/course/CourseFormScreen.kt:84-90 | a passing guard means the ECTS text parses to a positive value |
| CourseForm.CanSave | app/scrudstudents/src/main/java/com/tumme/scrudstudents/ui/course/CourseFormScreen.kt:84-90 | a passing guard means a non-empty name and a parsable ECTS text; a blank name (`Text.IsBlank`: every character whitespace) always fails |
| CourseForm.CourseForm.constructor | app/scrudstudents/src/main/java/com/tumme/scrudstudents/ui/course/CourseFormScreen.kt:19-25 | the given id, empty name and ECTS texts, level P1, no error flags, nothing inserted, onSaved not called |
| CourseForm.CourseForm.OnEctsChanged | app/scrudstudents/src/main/java/com/tumme/scrudstudents/ui/course/CourseFormScreen.kt:40-44 | ectsError is set iff the new text is unparsable or ≤ 0 (`EctsInvalid`); nothing else changes |
| CourseForm.CourseForm.Save | app/scrudstudents/src/main/java/com/tumme/scrudstudents/ui/course/CourseFormScreen.kt:81-98 | blank name or invalid ECTS: no insert and no onSaved; otherwise exactly one course with the form's id, name, ECTS and level, then onSaved; every inserted course keeps ECTS > 0 |
| SubscribeForm.ZeroAcceptedNegativeRejected | app/scrudstudents/src/main/java/com/tumme/scrudstudents/ui/screens/subscribe/SubscribeFormScreen.kt:150-154 | a score of zero passes, a negative one is flagged |
| SubscribeForm.SubscribeForm.constructor | app/scrudstudents/src/main/java/com/tumme/scrudstudents/ui/screens/subscribe/SubscribeFormScreen.kt:25-31 | selections start at the first student's and first course's ids (`FirstStudentId`, `FirstCourseId`: null for an empty list), empty score, no error flags, onSaved not called |
| SubscribeForm.SubscribeForm.SelectStudent | app/scrudstudents/src/main/java/com/tumme/scrudstudents/ui/screens/subscribe/SubscribeFormScreen.kt:85 | the student's id becomes the selection; everything else is kept |
| SubscribeForm.SubscribeForm.SelectCourse | app/scrudstudents/src/main/java/com/tumme/scrudstudents/ui/screens/subscribe/SubscribeFormScreen.kt:132 | the course's id becomes the selection; everything else is kept |
| SubscribeForm.SubscribeForm.OnStudentsChanged | app/scrudstudents/src/main/java/com/tumme/scrudstudents/ui/screens/subscribe/SubscribeFormScreen.kt:37-41 | an empty selection takes the first student; a selection is never overwritten |
| SubscribeForm.SubscribeForm.OnCoursesChanged | app/scrudstudents/src/main/java/com/tumme/scrudstudents/ui/screens/subscribe/SubscribeFormScreen.kt:42-46 | an empty selection takes the first course; a selection is never overwritten |
| SubscribeForm.SubscribeForm.OnScoreChanged | app/scrudstudents/src/main/java/com/tumme/scrudstudents/ui/screens/subscribe/SubscribeFormScreen.kt:150-154 | scoreError iff the text is unparsable or negative (`ScoreInvalid`) |
| SubscribeForm.SubscribeForm.Save | app/scrudstudents/src/main/java/com/tumme/scrudstudents/ui/screens/subscribe/SubscribeFormScreen.kt:167-181 | the three flags are set exactly for a missing student, a missing course, an invalid score; any flag: nothing inserted, no onSaved; otherwise the selected pair with the parsed score ≥ 0 is stored and onSaved called once |
| RegisterForm.GuardExamples | app/scrudstudents/src/main/java/com/tumme/scrudstudents/ui/screens/auth/RegisterScreen.kt:189-194 | an empty but confirmed password passes; a blank username or a mismatched confirmation does not |
| RegisterForm.RegisterAllowed | app/scrudstudents/src/main/java/com/tumme/scrudstudents/ui/screens/auth/RegisterScreen.kt:189-194 | a passing guard means matching passwords and non-empty username and names (not `Text.IsBlank`); a mismatch always fails |
| Text.BlankAppend | app/scrudstudents/src/main/java/com/tumme/scrudstudents/ui/screens/auth/RegisterScreen.kt:191-193 | a concatenation is blank iff both parts are |
| RegisterForm.RegisterForm.constructor | app/scrudstudents/src/main/java/com/tumme/scrudstudents/ui/screens/auth/RegisterScreen.kt:27-34 | empty texts, role STUDENT, gender Male, level P1 |
| RegisterForm.RegisterForm.Submit | app/scrudstudents/src/main/java/com/tumme/scrudstudents/ui/screens/auth/RegisterScreen.kt:187-223 | guard fails: no table changes and no onRegisterSuccess; otherwise STUDENT registers the entered student with the level and no photo, any other role a teacher with the next generated id; exactly one table changes, the session does not, onRegisterSuccess once |
| Entities.LevelIndex | app/scrudstudents/src/main/java/com/tumme/scrudstudents/ui/screens/student/StudentFinalGradeSummaryScreen.kt:27 | every level has a position in the enumeration order |
| Ordering.InsertSorted | app/scrudstudents/src/main/java/com/tumme/scrudstudents/data/local/dao/StudentDao.kt:33 | inserting into a sorted list keeps it sorted and adds exactly the element |
| Ordering.SortBy | app/scrudstudents/src/main/java/com/tumme/scrudstudents/data/local/dao/StudentDao.kt:33 | the ORDER BY result is a sorted permutation of its input |
| Keyed.Upsert | app/scrudstudents/src/main/java/com/tumme/scrudstudents/data/local/dao/StudentDao.kt:46 | the new row plus the old rows with other keys, keys stay unique |
| Keyed.UpsertIdempotent | app/scrudstudents/src/main/java/com/tumme/scrudstudents/data/local/dao/TeacherDao.kt:20-21 | a second identical REPLACE insert changes nothing |
| Keyed.LookupAfterWithout | app/scrudstudents/src/main/java/com/tumme/scrudstudents/data/local/dao/TeacherDao.kt:26-27 | after delete the key is absent and other keys read as before |

## Left out

- Flow, StateFlow, `combine`, `stateIn`, coroutines and the `MutableSharedFlow` event messages are reactive plumbing. Each `combine` body is a function of one snapshot of its inputs, and each `launch` is a sequential call.
- Compose layout, dropdown-expanded flags, string resources and display formatting are UI. The plain text-field updates are direct field assignments and have no methods.
- Navigation, the splash delay, the login, home and list screens, and the Hilt wiring and Room database builder are out of scope.
- The course DAO (behind `getCoursesByLevel` and `insertCourse`), the subscription entity and DAO, and the `LevelCourse` enum are not part of this model. `Entities.Subscribe` and `Entities.LevelCourse` take the shape their callers use.
  - Enrollments are assumed to be keyed by the (studentId, courseId) pair. That is the assumption under which "REPLACE strategy updates score" holds.
  - Courses handed to `insertCourse` are recorded in the form's log.
- The random course id and the form's current date are inputs.
- RegisterForm.RegisterForm.Submit: the student id is an input. The student entity the registration screen builds is not part of this model, and the call passes no id, so the entity supplies a default the model cannot see. If that default is a generated id, a registration always adds a row. The model's contract also allows an id that replaces an existing student.
- AuthRepository.Authenticate: a student's `levelOfStudy` is taken as always present. The student entity is not part of this model; if its level may be null, a STUDENT login can carry a null level, and the `AuthViewModel` session invariant's STUDENT-level clause no longer follows.
- TeacherDao.AssignedId: ids are unbounded integers. Kotlin `Int`'s 32-bit wrap-around of a generated id (`lastId + 1`) is not modelled.
- TeacherStudentList.StudentsByCourse: a Dafny `map` has no key order. The screen iterates `associateWith`'s insertion-ordered map in course-list order, and that display order is not captured.
- The subscription and course queries (`getSubscribesByStudent`, `getCoursesByLevel`, the subscription list) are not part of this model. The model returns their rows in insertion order.
- Parsing of float text is a parameter. Float and Double rounding is not modelled: arithmetic is over exact reals.
- Passwords are compared as plain strings, with no hashing.
- The duplicate `ui/subscribe/SubscribeViewModel.kt` is not modelled. Its `findSubscribe` is the one already modelled.
- Date and photo fields carry no logic.
- GradeSummary.WeightedSumBetween: it assumes non-negative ECTS. The course form's guard rejects finite values ≤ 0 but lets NaN through, and the teacher screen's dialog can store any parsed value.
- CourseForm.CourseForm.Save: `toFloatOrNull` also yields NaN ("NaN") and ±Infinity ("Infinity", or an overflowing literal such as "1e39"). The parser parameter returns only finite reals, so these are not representable. The guard `ectsFloat <= 0f` is false for NaN, so the source can insert a course whose ECTS is NaN. The proved "every inserted course has ECTS > 0" holds only for finite parses.
- CourseForm.CanSaveMeansPositive: for the same reason, "a passing guard means positive ECTS" holds only for finite parses. The text "NaN" passes the source's guard.
- SubscribeForm.SubscribeForm.Save: the guard `scoreFloat < 0f` is false for NaN, so the source can store a NaN score. The proved "stored score ≥ 0" holds only for finite parses.
- AuthViewModel.AuthViewModel.Login: it models one login at a time. Overlapping coroutine launches are not modelled.
