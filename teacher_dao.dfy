/**
 * The `teachers` table behind `TeacherDao`. Its key `idTeacher` is declared
 * `@PrimaryKey(autoGenerate = true)` with default 0: Room stores an entity
 * whose id is 0 under a fresh id, one above the largest id the table has
 * ever held (SQLite's AUTOINCREMENT counter, `lastId` here), and stores any
 * other id as given.
 */
module TeacherDao {
  import opened Wrappers
  import opened Entities
  import Keyed
  import Lists
  import Ordering

  function TeacherKey(t: Teacher): int { t.idTeacher }

  /** The sort key of `ORDER BY firstName`. */
  function FirstNameKey(t: Teacher): seq<string> { [t.firstName] }

  predicate HasCredentials(t: Teacher, username: string, password: string)
  {
    t.username == username && t.password == password
  }

  /** `SELECT * FROM teachers WHERE username = :username AND password = :password LIMIT 1`. */
  function FindByCredentials(rows: seq<Teacher>, username: string, password: string): (r: Option<Teacher>)
    ensures r.Some? ==> r.value in rows && HasCredentials(r.value, username, password)
    ensures r.None? <==> forall t :: t in rows ==> !HasCredentials(t, username, password)
  {
    var r := Lists.FindFirst(rows, t => HasCredentials(t, username, password));
    assert r.None? ==> forall t :: t in rows ==> !HasCredentials(t, username, password);
    r
  }

  /** The key a row is stored under, given the AUTOINCREMENT counter. */
  function AssignedId(t: Teacher, lastId: int): (id: int)
    ensures t.idTeacher != 0 ==> id == t.idTeacher
    ensures t.idTeacher == 0 ==> id > lastId
  {
    if t.idTeacher == 0 then lastId + 1 else t.idTeacher
  }

  class TeacherTable {
    var rows: seq<Teacher>
    /** The largest id ever stored (SQLite's `sqlite_sequence` entry for the table). */
    var lastId: int

    ghost predicate Valid()
      reads this
    {
      && Keyed.Unique(rows, TeacherKey)
      && 0 <= lastId
      && forall t :: t in rows ==> t.idTeacher != 0 && t.idTeacher <= lastId
    }

    constructor ()
      ensures Valid() && rows == [] && lastId == 0
    {
      rows, lastId := [], 0;
    }

    /** `getAllTeachers`: every row, ordered by first name. */
    method GetAllTeachers() returns (r: seq<Teacher>)
      requires Valid()
      ensures multiset(r) == multiset(rows)
      ensures forall i, j :: 0 <= i <= j < |r| ==> Ordering.TextLe(r[i].firstName, r[j].firstName)
    {
      r := Ordering.SortBy(rows, FirstNameKey);
      forall i, j | 0 <= i <= j < |r| ensures Ordering.TextLe(r[i].firstName, r[j].firstName) {
        Ordering.SortedPairwise(r, FirstNameKey, i, j);
        Ordering.KeyLeSingle(r[i].firstName, r[j].firstName);
      }
    }

    /**
     * `insert` with `OnConflictStrategy.REPLACE`. The source's `insert`
     * returns nothing; `id` is the model's record of the key the row was
     * stored under.
     */
    method Insert(teacher: Teacher) returns (id: int)
      requires Valid()
      modifies this
      ensures Valid()
      ensures id == AssignedId(teacher, old(lastId))
      ensures lastId == if old(lastId) < id then id else old(lastId)
      ensures teacher.idTeacher == 0 ==> forall t :: t in old(rows) ==> t.idTeacher != id
      ensures forall t :: t in rows <==> t == teacher.(idTeacher := id) || (t in old(rows) && t.idTeacher != id)
      ensures Keyed.Lookup(rows, TeacherKey, id) == Some(teacher.(idTeacher := id))
    {
      id := AssignedId(teacher, lastId);
      var stored := teacher.(idTeacher := id);
      rows := Keyed.Upsert(rows, TeacherKey, stored);
      if lastId < id {
        lastId := id;
      }
      Keyed.LookupAfterUpsert(old(rows), TeacherKey, stored);
    }

    /** `delete`: removes only the row with that teacher's key. */
    method Delete(teacher: Teacher)
      requires Valid()
      modifies this
      ensures Valid() && lastId == old(lastId)
      ensures forall t :: t in rows <==> t in old(rows) && t.idTeacher != teacher.idTeacher
    {
      rows := Keyed.Without(rows, TeacherKey, teacher.idTeacher);
    }

    /** `getTeacherById`: the row with that key, or null. */
    method GetTeacherById(id: int) returns (r: Option<Teacher>)
      requires Valid()
      ensures r.Some? <==> exists t :: t in rows && t.idTeacher == id
      ensures r.Some? ==> r.value in rows && r.value.idTeacher == id
    {
      r := Keyed.Lookup(rows, TeacherKey, id);
    }

    /** `getTeacherByUsernameAndPassword`: a row with both credentials, or null when none has them. */
    method GetTeacherByUsernameAndPassword(username: string, password: string) returns (r: Option<Teacher>)
      ensures r.Some? ==> r.value in rows && r.value.username == username && r.value.password == password
      ensures r.None? <==> forall t :: t in rows ==> !(t.username == username && t.password == password)
      ensures r == FindByCredentials(rows, username, password)
    {
      r := FindByCredentials(rows, username, password);
    }
  }

  /** An auto-generated id never collides with a stored row, so an id-0 insert never replaces. */
  lemma AutoIdIsFresh(rows: seq<Teacher>, lastId: int, t: Teacher)
    requires forall x :: x in rows ==> x.idTeacher <= lastId
    requires t.idTeacher == 0
    ensures Keyed.Lookup(rows, TeacherKey, AssignedId(t, lastId)) == None
    ensures |Keyed.Upsert(rows, TeacherKey, t.(idTeacher := AssignedId(t, lastId)))| == |rows| + 1
  {
    Keyed.WithoutAbsent(rows, TeacherKey, AssignedId(t, lastId));
  }
}
