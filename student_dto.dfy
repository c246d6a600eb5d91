/** The request record for creating or updating a student profile, and its mappings to and from `Student`. */
module StudentDto {
  import opened Wrappers
  import opened Text
  import opened Entities
  import opened Constraints

  datatype CreateStudentDto = CreateStudentDto(
    studentIndex: Option<string>,
    major: Option<string>,
    userId: Option<int>)

  /** The messages of the constraints `d` breaks. */
  function Violations(d: CreateStudentDto): (r: set<string>)
    ensures d.studentIndex.None? ==>
              "Student index is required" in r && "Student index must be at most 30 characters" !in r
    ensures d.major.None? ==> "Major is required" in r && "Major must be at most 120 characters" !in r
  {
    Check(NotBlank(d.studentIndex), "Student index is required")
    + Check(SizeAtMost(d.studentIndex, 30), "Student index must be at most 30 characters")
    + Check(NotBlank(d.major), "Major is required")
    + Check(SizeAtMost(d.major, 120), "Major must be at most 120 characters")
    + Check(NotNull(d.userId), "User ID is required")
  }

  /**
   * A student request is accepted exactly when the index is non-blank and at
   * most 30 characters, the major non-blank and at most 120, and the user id is
   * given.
   */
  lemma ValidIff(d: CreateStudentDto)
    ensures Violations(d) == {} <==>
              && d.studentIndex.Some? && !IsBlank(JavaTrim, d.studentIndex.value)
              && Utf16Length(d.studentIndex.value) <= STUDENT_INDEX_LENGTH
              && d.major.Some? && !IsBlank(JavaTrim, d.major.value) && Utf16Length(d.major.value) <= MAJOR_LENGTH
              && d.userId.Some?
  {
  }

  /**
   * `from(student)`: the index, the major and the id of the linked user; a
   * profile without a user throws NullPointerException.
   */
  function From(s: Student): (r: Result<CreateStudentDto>)
    reads s, s.user
    ensures r.Failure? <==> s.user == null
    ensures r.Success? ==> r.value == CreateStudentDto(s.studentIndex, s.major, s.user.id)
  {
    if s.user == null then Failure("NullPointerException", "")
    else Success(CreateStudentDto(s.studentIndex, s.major, s.user.id))
  }

  /**
   * `toStudent(user)`: a new profile with the index and major of the request,
   * linked to `user`. When `user` carries the request's user id, mapping the
   * profile back gives the request.
   */
  method ToStudent(d: CreateStudentDto, user: User?) returns (s: Student)
    ensures fresh(s)
    ensures s.studentIndex == d.studentIndex && s.major == d.major && s.user == user
    ensures s.id.None? && s.examRegistrations == []
    ensures user != null && user.id == d.userId ==> From(s) == Success(d)
  {
    s := new Student(d.studentIndex, d.major, user);
  }

  /** `from(students)`: one record per profile, in the same order; the first profile without a user throws. */
  function FromAll(ss: seq<Student>): (r: Result<seq<CreateStudentDto>>)
    reads set s | s in ss, set s | s in ss :: s.user
    ensures r.Success? <==> forall i :: 0 <= i < |ss| ==> ss[i].user != null
    ensures r.Success? ==> |r.value| == |ss| && forall i :: 0 <= i < |ss| ==> Success(r.value[i]) == From(ss[i])
  {
    if |ss| == 0 then Success([])
    else
      match From(ss[0])
      case Failure(e, m) => Failure(e, m)
      case Success(d) =>
        match FromAll(ss[1..])
        case Failure(e, m) => Failure(e, m)
        case Success(rest) => Success([d] + rest)
  }
}
