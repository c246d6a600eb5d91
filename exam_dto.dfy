/** The request record for creating or updating an exam, and its mapping from `Exam`. */
module ExamDto {
  import opened Wrappers
  import opened Text
  import opened Entities
  import opened Constraints

  datatype CreateExamDto = CreateExamDto(
    session: Option<string>,
    dateOfExam: Option<Date>,
    capacityOfStudents: Option<int>,
    reservedLaboratories: Option<seq<string>>,
    startTime: Option<Time>,
    endTime: Option<Time>)

  /** The messages of the constraints `d` breaks, on day `today` of the validating clock. */
  function Violations(d: CreateExamDto, today: Date): (r: set<string>)
    ensures d.dateOfExam.None? ==> "Exam date is required" in r && "Exam date cannot be in the past" !in r
    ensures d.capacityOfStudents.None? ==> "Capacity is required" in r && "Capacity must be at least 1" !in r
    ensures d.reservedLaboratories == Some([]) ==> "At least one laboratory must be reserved" in r
  {
    Check(NotBlank(d.session), "Exam session is required")
    + Check(NotNull(d.dateOfExam), "Exam date is required")
    + Check(d.dateOfExam.None? || d.dateOfExam.value >= today, "Exam date cannot be in the past")
    + Check(NotNull(d.capacityOfStudents), "Capacity is required")
    + Check(AtLeast(d.capacityOfStudents, 1), "Capacity must be at least 1")
    + Check(d.reservedLaboratories.Some? && |d.reservedLaboratories.value| > 0,
            "At least one laboratory must be reserved")
    + Check(NotNull(d.startTime), "Start time is required")
    + Check(NotNull(d.endTime), "End time is required")
  }

  /**
   * An exam request is accepted exactly when the session is non-blank, the date
   * is given and not before today, the capacity is at least 1, at least one
   * laboratory is listed and both times are given.
   */
  lemma ValidIff(d: CreateExamDto, today: Date)
    ensures Violations(d, today) == {} <==>
              && d.session.Some? && !IsBlank(JavaTrim, d.session.value)
              && d.dateOfExam.Some? && d.dateOfExam.value >= today
              && d.capacityOfStudents.Some? && d.capacityOfStudents.value >= 1
              && d.reservedLaboratories.Some? && |d.reservedLaboratories.value| > 0
              && d.startTime.Some? && d.endTime.Some?
  {
  }

  /**
   * Nothing relates the two times: swapping them, or giving any other pair of
   * times, never changes which constraints are broken.
   */
  lemma TimesUnrelated(d: CreateExamDto, today: Date, start: Time, end: Time)
    requires d.startTime.Some? && d.endTime.Some?
    ensures Violations(d.(startTime := Some(start), endTime := Some(end)), today) == Violations(d, today)
  {
  }

  /** `from(exam)`: the six scheduling fields; the course is not part of the record. */
  function From(e: Exam): (r: CreateExamDto)
    reads e
    ensures r.session == e.session && r.dateOfExam == e.dateOfExam
    ensures r.capacityOfStudents == e.capacityOfStudents && r.reservedLaboratories == Some(e.reservedLaboratories)
    ensures r.startTime == e.startTime && r.endTime == e.endTime
  {
    CreateExamDto(e.session, e.dateOfExam, e.capacityOfStudents, Some(e.reservedLaboratories), e.startTime, e.endTime)
  }

  /** `from(exams)`: one record per exam, in the same order. */
  function FromAll(es: seq<Exam>): (r: seq<CreateExamDto>)
    reads set e | e in es
    ensures |r| == |es|
    ensures forall i :: 0 <= i < |es| ==> r[i] == From(es[i])
  {
    if |es| == 0 then [] else [From(es[0])] + FromAll(es[1..])
  }
}
