/**
 * The dialog that edits a user: its form, filled from the selected user, and
 * what it hands to the grid on submit — the user request, and the previous
 * role with the student fields for the grid's "became a student" step.
 */
module EditUserDialog {
  import opened Wrappers
  import opened Text

  /** A user row of the grid. */
  datatype UserRow = UserRow(
    id: int,
    firstName: Option<string>,
    lastName: Option<string>,
    email: Option<string>,
    userRole: Option<string>)

  /** The user request body; a `None` e-mail is an undefined property. */
  datatype UserDto = UserDto(
    firstName: string,
    lastName: string,
    email: Option<string>,
    userRole: string,
    password: Option<string>)

  datatype StudentData = StudentData(studentIndex: string, major: string)

  /** The third argument of `onSave`. */
  datatype Extras = Extras(previousRole: Option<string>, studentData: Option<StudentData>)

  /** The arguments of `onSave`. */
  datatype Submission = Submission(id: int, dto: UserDto, extras: Extras)

  /** The form's fields; a form holds them all from the start. */
  const FIELDS: set<string> := {"firstName", "lastName", "email", "password", "userRole", "studentIndex", "major"}

  /** A form with every field empty. */
  function EmptyForm(): (r: map<string, string>)
    ensures r.Keys == FIELDS && forall k :: k in r ==> r[k] == ""
  {
    map k | k in FIELDS :: ""
  }

  /**
   * The form filled from `user`: names, e-mail and role where the user has
   * them (else empty); password and student fields always empty.
   */
  function PrefillOf(user: UserRow): (r: map<string, string>)
    ensures r.Keys == FIELDS
    ensures r["password"] == "" && r["studentIndex"] == "" && r["major"] == ""
    ensures r["firstName"] == user.firstName.GetOr("") && r["lastName"] == user.lastName.GetOr("")
    ensures r["email"] == user.email.GetOr("") && r["userRole"] == user.userRole.GetOr("")
  {
    map["firstName" := user.firstName.GetOr(""), "lastName" := user.lastName.GetOr(""),
        "email" := user.email.GetOr(""), "password" := "", "userRole" := user.userRole.GetOr(""),
        "studentIndex" := "", "major" := ""]
  }

  /**
   * `form.password && form.password.trim().length > 0 ? form.password : null`:
   * a blank password is not sent, any other is sent as typed.
   */
  function PasswordOrNull(password: string): (r: Option<string>)
    ensures r.None? <==> IsBlank(JavaScriptTrim, password)
    ensures r.Some? ==> r.value == password
  {
    TrimEmptyIffBlank(JavaScriptTrim, password);
    if password != "" && |Trim(JavaScriptTrim, password)| > 0 then Some(password) else None
  }

  /**
   * `handleSubmit`: the request has exactly the names, e-mail, role and
   * (non-blank) password of the form; the student fields travel only when the
   * chosen role is STUDENT, with the user's role before the edit.
   */
  function SubmissionOf(form: map<string, string>, user: UserRow): (r: Submission)
    requires FIELDS <= form.Keys
    ensures r.id == user.id
    ensures r.dto == UserDto(form["firstName"], form["lastName"], Some(form["email"]), form["userRole"],
                             PasswordOrNull(form["password"]))
    ensures r.extras.previousRole == user.userRole
    ensures r.extras.studentData.Some? <==> form["userRole"] == "STUDENT"
    ensures r.extras.studentData.Some? ==>
              r.extras.studentData.value == StudentData(form["studentIndex"], form["major"])
  {
    var dto := UserDto(form["firstName"], form["lastName"], Some(form["email"]), form["userRole"],
                       PasswordOrNull(form["password"]));
    var isStudent := form["userRole"] == "STUDENT";
    var studentData := if isStudent then Some(StudentData(form["studentIndex"], form["major"])) else None;
    Submission(user.id, dto, Extras(user.userRole, studentData))
  }

  /**
   * `handleSubmit` on the dialog's `user` prop: without a user, reading
   * `user.id` throws a TypeError and nothing is sent.
   */
  function Submit(form: map<string, string>, user: Option<UserRow>): (r: Result<Submission>)
    requires FIELDS <= form.Keys
    ensures r.Failure? <==> user.None?
    ensures r.Failure? ==> r.exception == "TypeError"
    ensures r.Success? ==> r.value.id == user.value.id && r.value.extras.previousRole == user.value.userRole
    ensures r.Success? ==> r.value == SubmissionOf(form, user.value)
  {
    if user.None? then Failure("TypeError", "Cannot read properties of null (reading 'id')")
    else Success(SubmissionOf(form, user.value))
  }

  /**
   * Submitting the prefilled form unchanged sends the user's own fields back,
   * without a password, and empty student fields exactly for a STUDENT.
   */
  lemma UntouchedSubmission(user: UserRow)
    ensures var s := SubmissionOf(PrefillOf(user), user);
            && s.dto == UserDto(user.firstName.GetOr(""), user.lastName.GetOr(""), Some(user.email.GetOr("")),
                                user.userRole.GetOr(""), None)
            && (s.extras.studentData.Some? <==> user.userRole == Some("STUDENT"))
            && (s.extras.studentData.Some? ==> s.extras.studentData.value == StudentData("", ""))
  {
    assert PasswordOrNull("") == None;
  }

  /** The dialog's form state. */
  class Dialog {
    var form: map<string, string>

    constructor()
      ensures form == EmptyForm()
    {
      form := EmptyForm();
    }

    predicate Valid()
      reads this
    {
      FIELDS <= form.Keys
    }

    /** The effect on `user`: a selected user refills the form; no user leaves it. */
    method Prefill(user: Option<UserRow>)
      modifies this
      ensures user.Some? ==> form == PrefillOf(user.value)
      ensures user.None? ==> form == old(form)
      ensures old(Valid()) ==> Valid()
    {
      if user.Some? {
        form := PrefillOf(user.value);
      }
    }

    /** `handleChange`: the named field takes the typed value. */
    method Change(name: string, value: string)
      modifies this
      ensures form == old(form)[name := value]
      ensures old(Valid()) ==> Valid()
    {
      form := form[name := value];
    }
  }
}
