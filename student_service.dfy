/**
 * The student service: reads of the `students` table, the in-place update of
 * a profile, and the two deletions (the profile alone, or the profile's user
 * and with it, by cascade, the profile).
 */
module StudentService {
  import opened Wrappers
  import opened Entities
  import opened Tables
  import UserService

  /** `findById`: the profile stored under `id`, if any. */
  function FindById(db: Database, id: int): (r: Option<Student>)
    reads db`students
    ensures r.Some? <==> id in db.students
    ensures r.Some? ==> r.value in db.students.Values
  {
    if id in db.students then Some(db.students[id]) else None
  }

  /**
   * `findByStudentIndex`: the profile with this index. The unique constraint on
   * the column guarantees there is at most one.
   */
  function FindByStudentIndex(db: Database, studentIndex: string): (r: Option<Student>)
    requires db.UniqueStudentIndexes()
    reads db`students, db.students.Values`studentIndex
    ensures r.None? <==> forall k :: k in db.students ==> db.students[k].studentIndex != Some(studentIndex)
    ensures r.Some? ==> r.value in db.students.Values && r.value.studentIndex == Some(studentIndex)
    ensures r.Some? ==> forall k :: k in db.students && db.students[k].studentIndex == Some(studentIndex) ==>
                                      db.students[k] == r.value
  {
    if exists k :: k in db.students && db.students[k].studentIndex == Some(studentIndex) then
      var k :| k in db.students && db.students[k].studentIndex == Some(studentIndex);
      Some(db.students[k])
    else
      None
  }

  /**
   * `update`: the stored profile under `id` takes the user, index and major of
   * `student`; its id and registrations stay. An absent id changes nothing.
   * New values that break a NOT NULL or length column of `students` (a null
   * user included), or an index or a user that another profile already has
   * (`uk_student_index`, `uk_student_user`), make the flush throw, and the row
   * stays as it was. The database checks the columns before the unique
   * indexes.
   */
  method Update(db: Database, id: int, student: Student) returns (r: Result<Option<Student>>)
    modifies if id in db.students then {db.students[id]} else {}
    ensures id !in old(db.students) ==> r == Success(None)
    ensures id in old(db.students) ==>
              (r.Failure? <==> old(!student.FitsColumns() || db.StudentIndexTakenByOther(student.studentIndex, id)
                                   || db.HasOtherProfile(student.user, id)))
    ensures r.Failure? ==> r.exception == "DataIntegrityViolationException"
    ensures r.Failure? && !old(student.FitsColumns()) ==> r.message == old(student.ColumnViolation()).value
    ensures r.Failure? && old(student.FitsColumns()) ==>
              (r.message == "uk_student_index" <==> old(db.StudentIndexTakenByOther(student.studentIndex, id)))
    ensures r.Failure? && old(student.FitsColumns()) && r.message != "uk_student_index" ==>
              r.message == "uk_student_user"
    ensures r.Failure? ==> unchanged(old(db.students[id]))
    ensures r.Success? && r.value.Some? ==>
              && r.value == Some(db.students[id])
              && var s := db.students[id];
              && s.user == old(student.user) && s.studentIndex == old(student.studentIndex)
              && s.major == old(student.major)
              && s.id == old(s.id) && s.examRegistrations == old(s.examRegistrations)
              && s.FitsColumns()
    ensures old(db.StudentsKeyed()) ==> db.StudentsKeyed()
    ensures old(db.Unique() && db.StudentsKeyed()) ==> db.Unique()
  {
    if id !in db.students {
      return Success(None);
    }
    var violated := student.ColumnViolation();
    if violated.Some? {
      return Failure("DataIntegrityViolationException", violated.value);
    }
    if db.StudentIndexTakenByOther(student.studentIndex, id) {
      return Failure("DataIntegrityViolationException", "uk_student_index");
    }
    if db.HasOtherProfile(student.user, id) {
      return Failure("DataIntegrityViolationException", "uk_student_user");
    }
    var existing := db.students[id];
    existing.user, existing.studentIndex, existing.major := student.user, student.studentIndex, student.major;
    // `save` of the managed row: the table already holds this object under `id`.
    r := Success(Some(existing));
  }

  /**
   * `deleteByIdWithoutUser`: a stored profile is removed with its exam
   * registrations and returned; its user stays. An absent id changes nothing.
   * An enrollment of the profile makes the delete fail on
   * `fk_enrollment_student`, with nothing removed.
   */
  method DeleteByIdWithoutUser(db: Database, id: int) returns (r: Result<Option<Student>>)
    requires db.Valid()
    modifies db`students, db`registrations
    ensures id !in old(db.students) ==> r == Success(None)
    ensures id in old(db.students) ==> (r.Failure? <==> old(db.Enrolled({db.students[id]})))
    ensures r.Failure? ==> r == Failure("DataIntegrityViolationException", "fk_enrollment_student")
    ensures !r.Success? || r.value.None? ==>
              db.students == old(db.students) && db.registrations == old(db.registrations)
    ensures r.Success? && r.value.Some? ==>
              && r.value == Some(old(db.students[id]))
              && db.students == old(db.students) - {id}
              && db.registrations == old(db.registrations)
                                     - old(RegistrationsOfProfiles(db.registrations, {db.students[id]}))
    ensures db.Valid()
    ensures old(db.StudentsKeyed()) ==> db.StudentsKeyed()
    ensures old(db.Unique()) ==> db.Unique()
  {
    var found := FindById(db, id);
    if found.None? {
      return Success(None);
    }
    var violated := db.DeleteStudent(id);
    if violated.Some? {
      return Failure("DataIntegrityViolationException", violated.value);
    }
    r := Success(found);
  }

  /**
   * The part of `deleteByIdWithUser` after the profile has been found: its user
   * is looked up and deleted (which removes the profile too, by orphan
   * removal), then the profile is deleted if its row is still there. When the
   * user cannot be deleted, the exception ends the operation with nothing
   * removed.
   */
  method DeleteFoundWithUser(db: Database, id: int) returns (r: Result<Student>)
    requires db.Valid() && db.UsersKeyed() && db.StudentsLinked() && id in db.students
    modifies db`users, db`students, db`registrations, db`assignments
    ensures old(db.students[id].user) != null && old(db.students[id].user.id).Some?
    ensures old(db.students[id].user.id.value) in old(db.users)
    ensures r.Failure? <==> old(db.UserDeleteViolation(db.students[id].user)).Some?
    ensures r.Failure? ==>
              && r.exception == "DataIntegrityViolationException"
              && Some(r.message) == old(db.UserDeleteViolation(db.students[id].user))
              && db.users == old(db.users) && db.students == old(db.students)
              && db.registrations == old(db.registrations) && db.assignments == old(db.assignments)
    ensures r.Success? ==>
              && r.value == old(db.students[id])
              && db.UserRemoved(old(db.students[id].user.id.value))
              && id !in db.students
    ensures db.Valid() && db.UsersKeyed()
    ensures old(db.Unique()) ==> db.Unique()
  {
    var s := db.students[id];
    var user := s.user;
    ghost var key :| key in db.users && db.users[key] == user;
    var userId := user.id.value;
    assert userId == key;
    ghost var profiles := ProfileIds(db.students, user, null);
    assert id in profiles;
    var found := UserService.FindById(db, userId);
    if found.Some? {
      var deleted := UserService.DeleteById(db, found.value.id.value);
      if deleted.Failure? {
        return Failure(deleted.exception, deleted.message);
      }
      assert db.students == old(db.students) - profiles;
    }
    // The orphan removal has already taken the profile's row.
    assert id !in db.students;
    label Flushed:
    var violated := db.DeleteStudentIfStored(id);
    assert db.students == old@Flushed(db.students) && db.registrations == old@Flushed(db.registrations);
    r := Success(s);
  }

  /**
   * `deleteByIdWithUser` as written: the profile's user is read through
   * `student.get()` before the presence of the profile is checked, so an absent
   * id throws NoSuchElementException instead of returning empty.
   */
  method DeleteByIdWithUserAsWritten(db: Database, id: int) returns (r: Result<Option<Student>>)
    requires db.Valid() && db.UsersKeyed() && db.StudentsLinked()
    modifies db`users, db`students, db`registrations, db`assignments
    ensures id !in old(db.students) ==>
              && r == Failure("NoSuchElementException", "No value present")
              && db.users == old(db.users) && db.students == old(db.students)
              && db.registrations == old(db.registrations) && db.assignments == old(db.assignments)
    ensures id in old(db.students) ==>
              && old(db.students[id].user) != null && old(db.students[id].user.id).Some?
              && (r.Failure? <==> old(db.UserDeleteViolation(db.students[id].user)).Some?)
              && (r.Success? ==> r.value == Some(old(db.students[id]))
                                 && db.UserRemoved(old(db.students[id].user.id.value)))
    ensures db.Valid() && db.UsersKeyed()
    ensures old(db.Unique()) ==> db.Unique()
  {
    if id !in db.students {
      return Failure("NoSuchElementException", "No value present");
    }
    var s := DeleteFoundWithUser(db, id);
    if s.Failure? {
      return Failure(s.exception, s.message);
    }
    r := Success(Some(s.value));
  }

  /**
   * `deleteByIdWithUser` with the presence check first, as `deleteById` of the
   * service interface promises: an absent id returns empty and changes nothing;
   * a stored profile is removed with its user (and that user's other rows) and
   * returned, unless a constraint keeps the user, and then nothing is removed.
   */
  method DeleteByIdWithUser(db: Database, id: int) returns (r: Result<Option<Student>>)
    requires db.Valid() && db.UsersKeyed() && db.StudentsLinked()
    modifies db`users, db`students, db`registrations, db`assignments
    ensures id !in old(db.students) ==> r == Success(None)
    ensures id in old(db.students) ==>
              && old(db.students[id].user) != null && old(db.students[id].user.id).Some?
              && (r.Failure? <==> old(db.UserDeleteViolation(db.students[id].user)).Some?)
              && (r.Failure? ==> r.exception == "DataIntegrityViolationException"
                                 && Some(r.message) == old(db.UserDeleteViolation(db.students[id].user)))
              && (r.Success? ==> r.value == Some(old(db.students[id]))
                                 && db.UserRemoved(old(db.students[id].user.id.value))
                                 && id !in db.students)
    ensures !r.Success? || r.value.None? ==>
              && db.users == old(db.users) && db.students == old(db.students)
              && db.registrations == old(db.registrations) && db.assignments == old(db.assignments)
    ensures db.Valid() && db.UsersKeyed()
    ensures old(db.Unique()) ==> db.Unique()
  {
    if id !in db.students {
      return Success(None);
    }
    var s := DeleteFoundWithUser(db, id);
    if s.Failure? {
      return Failure(s.exception, s.message);
    }
    r := Success(Some(s.value));
  }
}
