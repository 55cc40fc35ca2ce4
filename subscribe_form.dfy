/**
 * The subscription form: default selections that follow the student and
 * course lists, the score field's error flag, and the save button, which
 * sets all three error flags and inserts one subscription only when none
 * is set.
 */
module SubscribeForm {
  import opened Wrappers
  import opened Entities
  import SubscribeDao
  import Vm = SubscribeViewModel

  /** The score error condition: the text is not a number, or negative. Zero is accepted. */
  predicate ScoreInvalid(parse: string -> Option<real>, text: string)
  {
    parse(text).None? || parse(text).value < 0.0
  }

  /** `students.firstOrNull()?.idStudent`. */
  function FirstStudentId(students: seq<Student>): Option<int>
  {
    if students == [] then None else Some(students[0].idStudent)
  }

  /** `courses.firstOrNull()?.idCourse`. */
  function FirstCourseId(courses: seq<Course>): Option<int>
  {
    if courses == [] then None else Some(courses[0].idCourse)
  }

  /** Zero is an acceptable score, a negative one is not. */
  lemma ZeroAcceptedNegativeRejected(parse: string -> Option<real>, zero: string, negative: string)
    requires parse(zero) == Some(0.0)
    requires parse(negative).Some? && parse(negative).value < 0.0
    ensures !ScoreInvalid(parse, zero) && ScoreInvalid(parse, negative)
  {
  }

  class SubscribeForm {
    const viewModel: Vm.SubscribeViewModel
    /** `toFloatOrNull`, a parameter of the model; it yields only finite values (no NaN or infinity). */
    const parse: string -> Option<real>
    var selectedStudent: Option<int>
    var selectedCourse: Option<int>
    var score: string
    var scoreError: bool
    var studentError: bool
    var courseError: bool
    /** How many times `onSaved` has been called. */
    var savedCount: nat

    /** The first composition: selections start at the first element of each current list. */
    constructor (viewModel: Vm.SubscribeViewModel, parse: string -> Option<real>, students: seq<Student>, courses: seq<Course>)
      ensures this.viewModel == viewModel && this.parse == parse
      ensures selectedStudent == FirstStudentId(students) && selectedCourse == FirstCourseId(courses)
      ensures score == "" && !scoreError && !studentError && !courseError && savedCount == 0
    {
      this.viewModel := viewModel;
      this.parse := parse;
      selectedStudent := FirstStudentId(students);
      selectedCourse := FirstCourseId(courses);
      score := "";
      scoreError, studentError, courseError := false, false, false;
      savedCount := 0;
    }

    /** `LaunchedEffect(students)`: an empty selection takes the first student; a selection is kept. */
    method OnStudentsChanged(students: seq<Student>)
      modifies this
      ensures old(selectedStudent).Some? ==> selectedStudent == old(selectedStudent)
      ensures old(selectedStudent).None? ==> selectedStudent == FirstStudentId(students)
      ensures selectedCourse == old(selectedCourse) && score == old(score) && savedCount == old(savedCount)
      ensures scoreError == old(scoreError) && studentError == old(studentError) && courseError == old(courseError)
    {
      if selectedStudent == None && students != [] {
        selectedStudent := Some(students[0].idStudent);
      }
    }

    /** `LaunchedEffect(courses)`: an empty selection takes the first course; a selection is kept. */
    method OnCoursesChanged(courses: seq<Course>)
      modifies this
      ensures old(selectedCourse).Some? ==> selectedCourse == old(selectedCourse)
      ensures old(selectedCourse).None? ==> selectedCourse == FirstCourseId(courses)
      ensures selectedStudent == old(selectedStudent) && score == old(score) && savedCount == old(savedCount)
      ensures scoreError == old(scoreError) && studentError == old(studentError) && courseError == old(courseError)
    {
      if selectedCourse == None && courses != [] {
        selectedCourse := Some(courses[0].idCourse);
      }
    }

    /** A dropdown item's `onClick`: selects that student. */
    method SelectStudent(student: Student)
      modifies this
      ensures selectedStudent == Some(student.idStudent)
      ensures selectedCourse == old(selectedCourse) && score == old(score) && savedCount == old(savedCount)
      ensures scoreError == old(scoreError) && studentError == old(studentError) && courseError == old(courseError)
    {
      selectedStudent := Some(student.idStudent);
    }

    /** A dropdown item's `onClick`: selects that course. */
    method SelectCourse(course: Course)
      modifies this
      ensures selectedCourse == Some(course.idCourse)
      ensures selectedStudent == old(selectedStudent) && score == old(score) && savedCount == old(savedCount)
      ensures scoreError == old(scoreError) && studentError == old(studentError) && courseError == old(courseError)
    {
      selectedCourse := Some(course.idCourse);
    }

    /** The score field's `onValueChange`: stores the text and recomputes its flag. */
    method OnScoreChanged(text: string)
      modifies this
      ensures score == text && scoreError == ScoreInvalid(parse, text)
      ensures selectedStudent == old(selectedStudent) && selectedCourse == old(selectedCourse) && savedCount == old(savedCount)
      ensures studentError == old(studentError) && courseError == old(courseError)
    {
      score := text;
      var f := parse(text);
      scoreError := f.None? || f.value < 0.0;
    }

    /**
     * The save button: each flag is set exactly when its field is missing or
     * invalid; with any flag set nothing is inserted and `onSaved` is not
     * called; otherwise the selected pair with the parsed, non-negative score
     * is inserted (replacing that pair's row) and `onSaved` is called once.
     */
    method Save()
      requires viewModel.subscribeRepo.Valid()
      modifies this, viewModel.subscribeRepo
      ensures viewModel.subscribeRepo.Valid()
      ensures studentError == selectedStudent.None? && courseError == selectedCourse.None?
      ensures scoreError == ScoreInvalid(parse, score)
      ensures selectedStudent == old(selectedStudent) && selectedCourse == old(selectedCourse) && score == old(score)
      ensures studentError || courseError || scoreError ==>
                viewModel.subscribeRepo.rows == old(viewModel.subscribeRepo.rows) && savedCount == old(savedCount)
      ensures !(studentError || courseError || scoreError) ==>
                var saved := Subscribe(selectedStudent.value, selectedCourse.value, parse(score).value);
                saved.score >= 0.0
                && (forall s :: s in viewModel.subscribeRepo.rows <==>
                      s == saved || (s in old(viewModel.subscribeRepo.rows) && SubscribeDao.PairKey(s) != SubscribeDao.PairKey(saved)))
                && savedCount == old(savedCount) + 1
    {
      studentError := selectedStudent == None;
      courseError := selectedCourse == None;
      var scoreFloat := parse(score);
      scoreError := scoreFloat.None? || scoreFloat.value < 0.0;
      if studentError || courseError || scoreError {
        return;
      }
      var subscribe := Subscribe(selectedStudent.value, selectedCourse.value, scoreFloat.value);
      viewModel.InsertSubscribe(subscribe);
      savedCount := savedCount + 1;
    }
  }
}
