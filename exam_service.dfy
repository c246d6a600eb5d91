/**
 * The exam service: reads of the `exams` table, saving, the in-place update of
 * an exam's schedule and deletion with its cascade.
 */
module ExamService {
  import opened Wrappers
  import opened Entities
  import opened Tables

  /** `findById`: the exam stored under `id`, if any. */
  function FindById(db: Database, id: int): (r: Option<Exam>)
    reads db`exams
    ensures r.Some? <==> id in db.exams
    ensures r.Some? ==> r.value in db.exams.Values
  {
    if id in db.exams then Some(db.exams[id]) else None
  }

  /**
   * `save`: a new exam is stored under the next id, a saved one under its own,
   * and the exam itself is returned, now stored. An exam that breaks a NOT
   * NULL or length column of `exams` or `exam_reserved_labs` makes the save
   * throw, with nothing stored.
   */
  method Save(db: Database, exam: Exam) returns (r: Result<Exam>)
    requires db.Valid()
    modifies db`exams, db`nextExamId, exam`id
    ensures r.Failure? <==> !old(exam.FitsColumns())
    ensures r.Failure? ==>
              && r == Failure("DataIntegrityViolationException", old(exam.ColumnViolation()).value)
              && exam.id == old(exam.id) && db.exams == old(db.exams) && db.nextExamId == old(db.nextExamId)
    ensures r.Success? ==> r.value == exam && exam.id.Some? && FindById(db, exam.id.value) == Some(exam)
    ensures r.Success? && old(exam.id).None? ==>
              exam.id == Some(old(db.nextExamId)) && db.exams == old(db.exams)[exam.id.value := exam]
    ensures r.Success? && old(exam.id).Some? ==>
              exam.id == old(exam.id) && db.exams == old(db.exams)[exam.id.value := exam]
    ensures old(exam.id).None? ==> db.Valid()
    ensures old(db.ExamsKeyed()) ==> db.ExamsKeyed()
  {
    var violated := db.SaveExam(exam);
    if violated.Some? {
      return Failure("DataIntegrityViolationException", violated.value);
    }
    r := Success(exam);
  }

  /**
   * `update`: the stored exam under `id` takes the session, date, capacity,
   * laboratories and times of `exam`; its id, course and registrations stay.
   * An absent id changes nothing. When the new schedule with the stored
   * course breaks a NOT NULL or length column, the flush throws and the
   * transaction rolls the setters back.
   */
  method Update(db: Database, id: int, exam: Exam) returns (r: Result<Option<Exam>>)
    modifies if id in db.exams then {db.exams[id]} else {}
    ensures id !in old(db.exams) ==> r == Success(None)
    ensures id in old(db.exams) ==> (r.Failure? <==> old(exam.RowViolation(db.exams[id].course)).Some?)
    ensures r.Failure? ==>
              && r == Failure("DataIntegrityViolationException", old(exam.RowViolation(db.exams[id].course)).value)
              && unchanged(old(db.exams[id]))
    ensures r.Success? && r.value.Some? ==>
              && id in db.exams && r.value == Some(db.exams[id])
              && var e := db.exams[id];
              && e.FitsColumns()
              && e.session == old(exam.session) && e.dateOfExam == old(exam.dateOfExam)
              && e.capacityOfStudents == old(exam.capacityOfStudents)
              && e.reservedLaboratories == old(exam.reservedLaboratories)
              && e.startTime == old(exam.startTime) && e.endTime == old(exam.endTime)
              && e.id == old(e.id) && e.course == old(e.course)
              && e.studentExamRegistrations == old(e.studentExamRegistrations)
    ensures old(db.ExamsKeyed()) ==> db.ExamsKeyed()
  {
    if id !in db.exams {
      return Success(None);
    }
    var existing := db.exams[id];
    var violated := exam.RowViolation(existing.course);
    if violated.Some? {
      return Failure("DataIntegrityViolationException", violated.value);
    }
    existing.session := exam.session;
    existing.dateOfExam := exam.dateOfExam;
    existing.capacityOfStudents := exam.capacityOfStudents;
    existing.reservedLaboratories := exam.reservedLaboratories;
    existing.startTime := exam.startTime;
    existing.endTime := exam.endTime;
    // `save` of the managed row: the table already holds this object under `id`.
    r := Success(Some(existing));
  }

  /**
   * `deleteById`: a stored exam is removed with its registrations and
   * returned; an absent id changes nothing.
   */
  method DeleteById(db: Database, id: int) returns (r: Option<Exam>)
    requires db.Valid()
    modifies db`exams, db`registrations
    ensures id in old(db.exams) ==>
              && r == Some(old(db.exams[id]))
              && db.exams == old(db.exams) - {id}
              && db.registrations == old(db.registrations) - old(RegistrationsOfExam(db.registrations, db.exams[id]))
    ensures id !in old(db.exams) ==>
              r.None? && db.exams == old(db.exams) && db.registrations == old(db.registrations)
    ensures db.Valid()
    ensures old(db.ExamsKeyed()) ==> db.ExamsKeyed()
    ensures old(db.Unique()) ==> db.Unique()
  {
    r := FindById(db, id);
    if r.Some? {
      db.DeleteExam(id);
    }
  }
}
