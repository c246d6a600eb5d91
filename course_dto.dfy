/** The request record for creating or updating a course, and its mappings to and from `Course`. */
module CourseDto {
  import opened Wrappers
  import opened Text
  import opened Entities
  import opened Constraints

  datatype CreateCourseDto = CreateCourseDto(
    courseCode: Option<string>,
    courseName: Option<string>,
    semester: Option<int>,
    academicYear: Option<int>)

  /** The messages of the constraints on the record's components that `d` breaks. */
  function Violations(d: CreateCourseDto): (r: set<string>)
    ensures d.courseCode.None? ==>
              "Course code is required" in r && "Course code must be at most 30 characters" !in r
    ensures d.semester.None? ==>
              "Semester is required" in r && "Semester must be at least 1" !in r && "Semester must be at most 12" !in r
    ensures d.academicYear.None? ==>
              "Academic year is required" in r && "Academic year must be >= 2000" !in r
              && "Academic year must be <= 2100" !in r
  {
    Check(NotBlank(d.courseCode), "Course code is required")
    + Check(SizeAtMost(d.courseCode, 30), "Course code must be at most 30 characters")
    + Check(NotBlank(d.courseName), "Course name is required")
    + Check(SizeAtMost(d.courseName, 200), "Course name must be at most 200 characters")
    + Check(NotNull(d.semester), "Semester is required")
    + Check(AtLeast(d.semester, 1), "Semester must be at least 1")
    + Check(AtMost(d.semester, 12), "Semester must be at most 12")
    + Check(NotNull(d.academicYear), "Academic year is required")
    + Check(AtLeast(d.academicYear, 2000), "Academic year must be >= 2000")
    + Check(AtMost(d.academicYear, 2100), "Academic year must be <= 2100")
  }

  /**
   * A course request is accepted exactly when the code is non-blank and at most
   * 30 characters, the name non-blank and at most 200, the semester in 1..12
   * and the academic year in 2000..2100.
   */
  lemma ValidIff(d: CreateCourseDto)
    ensures Violations(d) == {} <==>
              && d.courseCode.Some? && !IsBlank(JavaTrim, d.courseCode.value) && Utf16Length(d.courseCode.value) <= COURSE_CODE_LENGTH
              && d.courseName.Some? && !IsBlank(JavaTrim, d.courseName.value) && Utf16Length(d.courseName.value) <= COURSE_NAME_LENGTH
              && d.semester.Some? && 1 <= d.semester.value <= 12
              && d.academicYear.Some? && 2000 <= d.academicYear.value <= 2100
  {
  }

  /** An accepted request fits the columns of `courses`. */
  lemma ValidFitsColumns(d: CreateCourseDto)
    requires Violations(d) == {}
    ensures FitsColumn(d.courseCode, COURSE_CODE_LENGTH) && FitsColumn(d.courseName, COURSE_NAME_LENGTH)
    ensures d.semester.Some? && d.academicYear.Some?
  {
    ValidIff(d);
  }

  /** `from(course)` */
  function From(c: Course): (r: CreateCourseDto)
    reads c
    ensures r.courseCode == c.courseCode && r.courseName == c.courseName
    ensures r.semester == c.semester && r.academicYear == c.academicYear
  {
    CreateCourseDto(c.courseCode, c.courseName, c.semester, c.academicYear)
  }

  /** `toCourse()`: a new course with the four fields; mapping it back gives the request. */
  method ToCourse(d: CreateCourseDto) returns (c: Course)
    ensures fresh(c)
    ensures From(c) == d
    ensures c.id.None? && c.courseEnrollments == [] && c.courseStaffAssignments == []
  {
    c := new Course(d.courseCode, d.courseName, d.semester, d.academicYear);
  }

  /** `from(courses)`: one record per course, in the same order. */
  function FromAll(cs: seq<Course>): (r: seq<CreateCourseDto>)
    reads set c | c in cs
    ensures |r| == |cs|
    ensures forall i :: 0 <= i < |cs| ==> r[i] == From(cs[i])
  {
    if |cs| == 0 then [] else [From(cs[0])] + FromAll(cs[1..])
  }
}
