/**
 * The course form: its remembered state, the ECTS field's error flag and
 * the save button, which hands a course to `insertCourse` only when the
 * name is not blank and the ECTS text parses to a positive number.
 */
module CourseForm {
  import opened Wrappers
  import opened Entities
  import opened Text

  /** The ECTS error condition: the text is not a number, or not positive. */
  predicate EctsInvalid(parse: string -> Option<real>, text: string)
  {
    parse(text).None? || parse(text).value <= 0.0
  }

  /** The save guard: a non-blank name and a valid ECTS text. */
  predicate CanSave(parse: string -> Option<real>, name: string, ectsText: string): (r: bool)
    ensures r ==> name != [] && parse(ectsText).Some?
    ensures IsBlank(name) ==> !r
  {
    !IsBlank(name) && !EctsInvalid(parse, ectsText)
  }

  /** Whatever the parser, a guard that passes guarantees a positive ECTS value. */
  lemma CanSaveMeansPositive(parse: string -> Option<real>, name: string, ectsText: string)
    requires CanSave(parse, name, ectsText)
    ensures parse(ectsText).Some? && parse(ectsText).value > 0.0
  {
  }

  class CourseForm {
    /** `toFloatOrNull`, a parameter of the model; it yields only finite values (no NaN or infinity). */
    const parse: string -> Option<real>
    /** The course id, drawn at random in the source; an input here. */
    var id: int
    var nameCourse: string
    var ectsCourse: string
    var levelCourse: LevelCourse
    var ectsError: bool
    /** Declared and shown, but never set by any handler. */
    var nameError: bool
    /** Every course handed to `insertCourse`, in order. */
    var inserted: seq<Course>
    /** How many times `onSaved` has been called. */
    var savedCount: nat

    /** Every inserted course has a non-blank name and positive ECTS; one `onSaved` per insert; a shown ECTS error is never stale. */
    ghost predicate Valid()
      reads this
    {
      |inserted| == savedCount
      && (forall c :: c in inserted ==> c.ects > 0.0 && !IsBlank(c.name))
      && (ectsError ==> EctsInvalid(parse, ectsCourse))
    }

    constructor (id: int, parse: string -> Option<real>)
      ensures Valid()
      ensures this.id == id && this.parse == parse
      ensures nameCourse == "" && ectsCourse == "" && levelCourse == P1
      ensures !ectsError && !nameError && inserted == [] && savedCount == 0
    {
      this.id := id;
      this.parse := parse;
      nameCourse, ectsCourse, levelCourse := "", "", P1;
      ectsError, nameError := false, false;
      inserted, savedCount := [], 0;
    }

    /** The ECTS field's `onValueChange`: stores the text and recomputes the flag. */
    method OnEctsChanged(text: string)
      requires Valid()
      modifies this
      ensures Valid()
      ensures ectsCourse == text && ectsError == EctsInvalid(parse, text)
      ensures id == old(id) && nameCourse == old(nameCourse) && levelCourse == old(levelCourse)
      ensures nameError == old(nameError) && inserted == old(inserted) && savedCount == old(savedCount)
    {
      ectsCourse := text;
      var f := parse(text);
      ectsError := f.None? || f.value <= 0.0;
    }

    /**
     * The save button: nothing when the name is blank or the ECTS text is
     * invalid; otherwise one course with the form's id, name, ECTS and level
     * (and no teacher) is inserted, then `onSaved` is called. No error flag
     * changes.
     */
    method Save()
      requires Valid()
      modifies this
      ensures Valid()
      ensures !CanSave(parse, nameCourse, ectsCourse) ==> inserted == old(inserted) && savedCount == old(savedCount)
      ensures CanSave(parse, nameCourse, ectsCourse) ==>
                inserted == old(inserted) + [Course(id, nameCourse, parse(ectsCourse).value, levelCourse, None)]
                && savedCount == old(savedCount) + 1
      ensures id == old(id) && nameCourse == old(nameCourse) && ectsCourse == old(ectsCourse) && levelCourse == old(levelCourse)
      ensures ectsError == old(ectsError) && nameError == old(nameError)
    {
      var ectsFloat := parse(ectsCourse);
      if IsBlank(nameCourse) {
        return;
      }
      if ectsFloat.None? || ectsFloat.value <= 0.0 {
        return;
      }
      var course := Course(id, nameCourse, ectsFloat.value, levelCourse, None);
      inserted := inserted + [course];
      savedCount := savedCount + 1;
    }
  }
}
