/**
 * The `students` table behind `StudentDao`: rows keyed by `idStudent`
 * (no auto-generation: the caller supplies the key).
 */
module StudentDao {
  import opened Wrappers
  import opened Entities
  import Keyed
  import Lists
  import Ordering

  function StudentKey(s: Student): int { s.idStudent }

  /** The sort key of `ORDER BY lastName, firstName`. */
  function NameKey(s: Student): seq<string> { [s.lastName, s.firstName] }

  predicate HasCredentials(s: Student, username: string, password: string)
  {
    s.username == username && s.password == password
  }

  /** `SELECT * FROM students WHERE username = :username AND password = :password LIMIT 1`. */
  function FindByCredentials(rows: seq<Student>, username: string, password: string): (r: Option<Student>)
    ensures r.Some? ==> r.value in rows && HasCredentials(r.value, username, password)
    ensures r.None? <==> forall s :: s in rows ==> !HasCredentials(s, username, password)
  {
    var r := Lists.FindFirst(rows, s => HasCredentials(s, username, password));
    assert r.None? ==> forall s :: s in rows ==> !HasCredentials(s, username, password);
    r
  }

  class StudentTable {
    var rows: seq<Student>

    ghost predicate Valid()
      reads this
    {
      Keyed.Unique(rows, StudentKey)
    }

    constructor ()
      ensures Valid() && rows == []
    {
      rows := [];
    }

    /** `getAllStudents`: every row, ordered by last name, then first name. */
    method GetAllStudents() returns (r: seq<Student>)
      requires Valid()
      ensures multiset(r) == multiset(rows)
      ensures forall i, j :: 0 <= i <= j < |r| ==> Ordering.KeyLe(NameKey(r[i]), NameKey(r[j]))
    {
      r := Ordering.SortBy(rows, NameKey);
      forall i, j | 0 <= i <= j < |r| ensures Ordering.KeyLe(NameKey(r[i]), NameKey(r[j])) {
        Ordering.SortedPairwise(r, NameKey, i, j);
      }
    }

    /** `insert` with `OnConflictStrategy.REPLACE`. */
    method Insert(student: Student)
      requires Valid()
      modifies this
      ensures Valid()
      ensures forall s :: s in rows <==> s == student || (s in old(rows) && s.idStudent != student.idStudent)
      ensures Keyed.Lookup(rows, StudentKey, student.idStudent) == Some(student)
    {
      rows := Keyed.Upsert(rows, StudentKey, student);
      Keyed.LookupAfterUpsert(old(rows), StudentKey, student);
    }

    /** `delete`: removes the row with the entity's key, whatever its other fields. */
    method Delete(student: Student)
      requires Valid()
      modifies this
      ensures Valid()
      ensures forall s :: s in rows <==> s in old(rows) && s.idStudent != student.idStudent
    {
      rows := Keyed.Without(rows, StudentKey, student.idStudent);
    }

    /** `getStudentById`: the row with that key, or null. */
    method GetStudentById(id: int) returns (r: Option<Student>)
      requires Valid()
      ensures r.Some? <==> exists s :: s in rows && s.idStudent == id
      ensures r.Some? ==> r.value in rows && r.value.idStudent == id
    {
      r := Keyed.Lookup(rows, StudentKey, id);
    }

    /** The credential query, shaped as `TeacherDao.getTeacherByUsernameAndPassword`. */
    method GetStudentByUsernameAndPassword(username: string, password: string) returns (r: Option<Student>)
      ensures r.Some? ==> r.value in rows && r.value.username == username && r.value.password == password
      ensures r.None? <==> forall s :: s in rows ==> !(s.username == username && s.password == password)
      ensures r == FindByCredentials(rows, username, password)
    {
      r := FindByCredentials(rows, username, password);
    }
  }

  /** `getStudentById` right after `insert(s)` returns `s`; other keys read as before. */
  lemma GetByIdAfterInsert(rows: seq<Student>, s: Student, id: int)
    requires Keyed.Unique(rows, StudentKey)
    ensures Keyed.Lookup(Keyed.Upsert(rows, StudentKey, s), StudentKey, s.idStudent) == Some(s)
    ensures id != s.idStudent ==>
              Keyed.Lookup(Keyed.Upsert(rows, StudentKey, s), StudentKey, id) == Keyed.Lookup(rows, StudentKey, id)
  {
    Keyed.LookupAfterUpsert(rows, StudentKey, s);
    if id != s.idStudent {
      Keyed.LookupOtherAfterUpsert(rows, StudentKey, s, id);
    }
  }

  /** Inserting the same student twice leaves one row with its key, as inserting once does. */
  lemma InsertTwice(rows: seq<Student>, s: Student)
    ensures Keyed.Upsert(Keyed.Upsert(rows, StudentKey, s), StudentKey, s) == Keyed.Upsert(rows, StudentKey, s)
    ensures Keyed.KeyCount(Keyed.Upsert(rows, StudentKey, s), StudentKey, s.idStudent) == 1
  {
    Keyed.UpsertIdempotent(rows, StudentKey, s);
    Keyed.UpsertLeavesOneRow(rows, StudentKey, s);
  }
}
