/**
 * The course service: reads of the `courses` table, the in-place update of a
 * course's scalar fields and deletion with its cascade.
 */
module CourseService {
  import opened Wrappers
  import opened Entities
  import opened Tables

  /**
   * `findById`, and `findByIdWithStaff`, whose fetch join only loads the staff
   * assignments eagerly: the course stored under `id`, if any.
   */
  function FindById(db: Database, id: int): (r: Option<Course>)
    reads db`courses
    ensures r.Some? <==> id in db.courses
    ensures r.Some? ==> r.value in db.courses.Values
  {
    if id in db.courses then Some(db.courses[id]) else None
  }

  /**
   * `update`: the stored course under `id` takes the code, name, semester and
   * academic year of `course`; its id, enrollments and staff assignments stay.
   * An absent id changes nothing. When the new values break a NOT NULL or
   * length column of `courses`, or another course already has the new code,
   * semester and academic year (`uk_course_code_semester_year`), the flush
   * throws and the transaction rolls the setters back. The database checks
   * the columns before the unique index.
   */
  method Update(db: Database, id: int, course: Course) returns (r: Result<Option<Course>>)
    modifies if id in db.courses then {db.courses[id]} else {}
    ensures id !in old(db.courses) ==> r == Success(None)
    ensures id in old(db.courses) ==>
              (r.Failure? <==> !old(course.FitsColumns())
                               || old(db.CourseKeyTakenByOther(course.courseCode, course.semester, course.academicYear, id)))
    ensures r.Failure? ==> r.exception == "DataIntegrityViolationException"
    ensures r.Failure? && !old(course.FitsColumns()) ==> r.message == old(course.ColumnViolation()).value
    ensures r.Failure? && old(course.FitsColumns()) ==> r.message == "uk_course_code_semester_year"
    ensures r.Failure? ==> unchanged(old(db.courses[id]))
    ensures r.Success? && r.value.Some? ==>
              && r.value == Some(db.courses[id])
              && var c := db.courses[id];
              && c.courseCode == old(course.courseCode) && c.courseName == old(course.courseName)
              && c.semester == old(course.semester) && c.academicYear == old(course.academicYear)
              && c.id == old(c.id) && c.courseEnrollments == old(c.courseEnrollments)
              && c.courseStaffAssignments == old(c.courseStaffAssignments)
              && c.FitsColumns()
    ensures old(db.CoursesKeyed()) ==> db.CoursesKeyed()
    ensures old(db.Unique() && db.CoursesKeyed()) ==> db.Unique()
  {
    if id !in db.courses {
      return Success(None);
    }
    var violated := course.ColumnViolation();
    if violated.Some? {
      return Failure("DataIntegrityViolationException", violated.value);
    }
    if db.CourseKeyTakenByOther(course.courseCode, course.semester, course.academicYear, id) {
      return Failure("DataIntegrityViolationException", "uk_course_code_semester_year");
    }
    var existing := db.courses[id];
    existing.courseCode, existing.courseName := course.courseCode, course.courseName;
    existing.semester, existing.academicYear := course.semester, course.academicYear;
    // `save` of the managed row: the table already holds this object under `id`.
    r := Success(Some(existing));
  }

  /**
   * `deleteById`: a stored course is removed with its enrollments and staff
   * assignments and returned; an absent id changes nothing. An exam of the
   * course makes the delete fail on `fk_exam_course`, with nothing removed.
   */
  method DeleteById(db: Database, id: int) returns (r: Result<Option<Course>>)
    requires db.Valid()
    modifies db`courses, db`enrollments, db`assignments
    ensures id !in old(db.courses) ==> r == Success(None)
    ensures id in old(db.courses) ==> (r.Failure? <==> old(db.HasExams(db.courses[id])))
    ensures r.Failure? ==> r == Failure("DataIntegrityViolationException", "fk_exam_course")
    ensures !r.Success? || r.value.None? ==>
              db.courses == old(db.courses) && db.enrollments == old(db.enrollments)
              && db.assignments == old(db.assignments)
    ensures r.Success? && r.value.Some? ==>
              && r.value == Some(old(db.courses[id]))
              && db.courses == old(db.courses) - {id}
              && db.enrollments == old(db.enrollments) - old(EnrollmentsOfCourse(db.enrollments, db.courses[id]))
              && db.assignments == old(db.assignments) - old(AssignmentsOfCourse(db.assignments, db.courses[id]))
    ensures db.Valid()
    ensures old(db.CoursesKeyed()) ==> db.CoursesKeyed()
    ensures old(db.Unique()) ==> db.Unique()
  {
    var found := FindById(db, id);
    if found.None? {
      return Success(None);
    }
    var violated := db.DeleteCourse(id);
    if violated.Some? {
      return Failure("DataIntegrityViolationException", violated.value);
    }
    r := Success(found);
  }
}
