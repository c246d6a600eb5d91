/**
 * The dialog that edits a student profile together with its user: its form,
 * filled from the selected student row, and the two requests it hands to the
 * grid on submit.
 */
module EditStudentDialog {
  import opened Wrappers
  import opened Text
  import EditUserDialog

  /** A student row of the grid, with the fields of its user. */
  datatype StudentRow = StudentRow(
    id: int,
    userId: Option<int>,
    studentIndex: Option<string>,
    studentMajor: Option<string>,
    major: Option<string>,
    studentFirstName: Option<string>,
    studentLastName: Option<string>,
    studentEmail: Option<string>,
    userRole: Option<string>)

  /** The student request body. */
  datatype StudentDto = StudentDto(studentIndex: string, major: string, userId: Option<int>)

  const STUDENT_FIELDS: set<string> := {"studentIndex", "major", "firstName", "lastName", "userRole", "password"}

  /** The initial form: all fields empty except the role, STUDENT. */
  function InitialForm(): (r: map<string, string>)
    ensures r.Keys == STUDENT_FIELDS
    ensures r["userRole"] == "STUDENT"
    ensures forall k :: k in r && k != "userRole" ==> r[k] == ""
  {
    map["studentIndex" := "", "major" := "", "firstName" := "", "lastName" := "",
        "userRole" := "STUDENT", "password" := ""]
  }

  /** `student.studentMajor ?? student.major ?? ""` */
  function MajorOf(student: StudentRow): (r: string)
    ensures student.studentMajor.Some? ==> r == student.studentMajor.value
    ensures student.studentMajor.None? && student.major.Some? ==> r == student.major.value
    ensures student.studentMajor.None? && student.major.None? ==> r == ""
  {
    match student.studentMajor
    case Some(m) => m
    case None => student.major.GetOr("")
  }

  /**
   * The form filled from `student`: index, major, names and role where the row
   * has them (the role defaulting to STUDENT), and an empty password.
   */
  function PrefillOf(student: StudentRow): (r: map<string, string>)
    ensures r.Keys == STUDENT_FIELDS
    ensures r["studentIndex"] == student.studentIndex.GetOr("") && r["major"] == MajorOf(student)
    ensures r["firstName"] == student.studentFirstName.GetOr("")
    ensures r["lastName"] == student.studentLastName.GetOr("")
    ensures r["userRole"] == student.userRole.GetOr("STUDENT") && r["password"] == ""
  {
    map["studentIndex" := student.studentIndex.GetOr(""), "major" := MajorOf(student),
        "firstName" := student.studentFirstName.GetOr(""), "lastName" := student.studentLastName.GetOr(""),
        "userRole" := student.userRole.GetOr("STUDENT"), "password" := ""]
  }

  /** The arguments of `onSave` after the row itself. */
  datatype StudentSubmission = StudentSubmission(studentDto: StudentDto, userDto: EditUserDialog.UserDto)

  /**
   * `handleSubmit`: the student request carries the form's index and major and
   * the row's user id; the user request carries the form's names, role and
   * (non-blank) password, and always the row's e-mail address, which the form
   * cannot change.
   */
  function SubmissionOf(form: map<string, string>, student: StudentRow): (r: StudentSubmission)
    requires STUDENT_FIELDS <= form.Keys
    ensures r.studentDto == StudentDto(form["studentIndex"], form["major"], student.userId)
    ensures r.userDto.email == student.studentEmail
    ensures r.userDto.firstName == form["firstName"] && r.userDto.lastName == form["lastName"]
    ensures r.userDto.userRole == form["userRole"]
    ensures r.userDto.password.None? <==> IsBlank(JavaScriptTrim, form["password"])
    ensures r.userDto.password.Some? ==> r.userDto.password.value == form["password"]
  {
    StudentSubmission(
      StudentDto(form["studentIndex"], form["major"], student.userId),
      EditUserDialog.UserDto(form["firstName"], form["lastName"], student.studentEmail, form["userRole"],
              EditUserDialog.PasswordOrNull(form["password"])))
  }

  /** Whatever is typed, the e-mail address sent is the row's. */
  lemma EmailNotEditable(form: map<string, string>, student: StudentRow, field: string, value: string)
    requires STUDENT_FIELDS <= form.Keys
    ensures SubmissionOf(form[field := value], student).userDto.email == student.studentEmail
  {
  }

  /**
   * Submitting the prefilled form unchanged sends the row's own index, major
   * and user id, its names and role, and no password.
   */
  lemma UntouchedSubmission(student: StudentRow)
    ensures var s := SubmissionOf(PrefillOf(student), student);
            && s.studentDto == StudentDto(student.studentIndex.GetOr(""), MajorOf(student), student.userId)
            && s.userDto == EditUserDialog.UserDto(student.studentFirstName.GetOr(""), student.studentLastName.GetOr(""),
                                    student.studentEmail, student.userRole.GetOr("STUDENT"), None)
  {
    assert EditUserDialog.PasswordOrNull("") == None;
  }

  /** The dialog's form state. */
  class Dialog {
    var form: map<string, string>

    constructor()
      ensures form == InitialForm()
    {
      form := InitialForm();
    }

    predicate Valid()
      reads this
    {
      STUDENT_FIELDS <= form.Keys
    }

    /** The effect on `student`: a selected row refills the form; no row leaves it. */
    method Prefill(student: Option<StudentRow>)
      modifies this
      ensures student.Some? ==> form == PrefillOf(student.value)
      ensures student.None? ==> form == old(form)
      ensures old(Valid()) ==> Valid()
    {
      if student.Some? {
        form := PrefillOf(student.value);
      }
    }

    /** `handleChange`: the named field takes the typed value. */
    method Change(name: string, value: string)
      modifies this
      ensures form == old(form)[name := value]
      ensures old(Valid()) ==> Valid()
    {
      form := form[name := value];
    }
  }
}
