/**
 * What the course creation and course edit dialogs share: the label of a
 * user in the staff pickers, the options those pickers offer, the form and
 * the request built from it. JavaScript's `Number` on a non-blank text is a
 * parameter; its `None` stands for NaN, which JSON sends as null.
 */
module CourseForm {
  import opened Wrappers
  import opened Text
  import opened Seqs
  import opened JsValues

  /** `[u.firstName, u.lastName].filter(Boolean).join(" ")`. */
  function NamesText(u: UserRecord): (r: string)
    ensures Present(u.firstName) && Present(u.lastName) ==> r == u.firstName.value + " " + u.lastName.value
    ensures Present(u.firstName) && !Present(u.lastName) ==> r == u.firstName.value
    ensures !Present(u.firstName) && Present(u.lastName) ==> r == u.lastName.value
    ensures r == "" <==> !Present(u.firstName) && !Present(u.lastName)
  {
    if Present(u.firstName) && Present(u.lastName) then u.firstName.value + " " + u.lastName.value
    else if Present(u.firstName) then u.firstName.value
    else if Present(u.lastName) then u.lastName.value
    else ""
  }

  /** `${u.id}`: the decimal id, or "undefined" when the record has none. */
  function IdText(id: Option<int>): string {
    if id.Some? then IntToString(id.value) else "undefined"
  }

  /**
   * `fullName`: the record's full name, else its non-empty first and last
   * names joined by a space, else its e-mail, else "User #" and the id. The
   * label is never empty.
   */
  function FullName(u: UserRecord): (r: string)
    ensures r != ""
    ensures Present(u.fullName) ==> r == u.fullName.value
    ensures !Present(u.fullName) && NamesText(u) != "" ==> r == NamesText(u)
    ensures !Present(u.fullName) && NamesText(u) == "" && Present(u.email) ==> r == u.email.value
    ensures !Present(u.fullName) && NamesText(u) == "" && !Present(u.email) ==> r == "User #" + IdText(u.id)
  {
    if Present(u.fullName) then u.fullName.value
    else if NamesText(u) != "" then NamesText(u)
    else if Present(u.email) then u.email.value
    else "User #" + IdText(u.id)
  }

  /** A record with no name fields at all and no e-mail is labelled by its id. */
  lemma AnonymousLabel(id: int)
    ensures FullName(UserRecord(Some(id), None, None, None, None, Some("STAFF"))) == "User #" + IntToString(id)
  {
    var u := UserRecord(Some(id), None, None, None, None, Some("STAFF"));
    assert NamesText(u) == "";
  }

  /** The user list: an array, else `users.users`, else `users.data`, else []. */
  function AllUsers(users: Value<UserRecord>): (r: seq<UserRecord>)
    ensures users.List? ==> r == users.items
    ensures !users.List? && Field(users, "users").List? ==> r == Field(users, "users").items
    ensures !users.List? && !Field(users, "users").List? && Field(users, "data").List? ==>
              r == Field(users, "data").items
    ensures !users.List? && !Field(users, "users").List? && !Field(users, "data").List? ==> r == []
  {
    ArrayOrWrapped(users, "users", "data")
  }

  predicate IsStaff(u: UserRecord) {
    u.userRole == Some("STAFF")
  }

  /**
   * The options of both pickers: exactly the STAFF users of the list, in list
   * order.
   */
  function StaffOptions(users: Value<UserRecord>): (r: seq<UserRecord>)
    ensures forall i :: 0 <= i < |r| ==> r[i] in AllUsers(users) && IsStaff(r[i])
    ensures forall u :: u in AllUsers(users) && IsStaff(u) ==> u in r
    ensures IsSubsequence(r, AllUsers(users))
  {
    var all := AllUsers(users);
    FilterIsSubsequence(all, IsStaff);
    var r := Filter(all, IsStaff);
    forall u | u in all && IsStaff(u)
      ensures u in r
    {
      var i :| 0 <= i < |all| && all[i] == u;
    }
    r
  }

  /** A numeric field: the number it was prefilled with, or the text typed into it. */
  datatype NumberField = FieldNumber(n: int) | FieldText(text: string)

  /** `Number(v)`: a number is itself, blank text is 0, other text is parsed. */
  function NumberOf(f: NumberField, toNumber: string -> Option<int>): (r: Option<int>)
    ensures f.FieldNumber? ==> r == Some(f.n)
    ensures f.FieldText? && IsBlank(JavaScriptTrim, f.text) ==> r == Some(0)
    ensures f.FieldText? && !IsBlank(JavaScriptTrim, f.text) ==> r == toNumber(f.text)
  {
    match f
    case FieldNumber(n) => Some(n)
    case FieldText(t) => if IsBlank(JavaScriptTrim, t) then Some(0) else toNumber(t)
  }

  /** The course form. */
  datatype Form = Form(
    courseCode: string,
    courseName: string,
    semester: NumberField,
    academicYear: NumberField,
    professors: seq<UserRecord>,
    assistants: seq<UserRecord>)

  /** `initialFormData`: empty texts and no staff picked. */
  const INITIAL_FORM := Form("", "", FieldText(""), FieldText(""), [], [])

  /** The request body of a course creation or update. */
  datatype CoursePayload = CoursePayload(
    courseCode: string,
    courseName: string,
    semester: Option<int>,
    academicYear: Option<int>,
    professorIds: seq<Option<int>>,
    assistantIds: seq<Option<int>>)

  /** The ids of the picked users, in the order they were picked. */
  function Ids(users: seq<UserRecord>): (r: seq<Option<int>>)
    ensures |r| == |users| && forall i :: 0 <= i < |r| ==> r[i] == users[i].id
  {
    seq(|users|, i requires 0 <= i < |users| => users[i].id)
  }

  /**
   * `handleSubmit`'s payload: the texts as typed, both numbers through
   * `Number`, and the picked professors and assistants by id in picking order.
   */
  function Payload(form: Form, toNumber: string -> Option<int>): (r: CoursePayload)
    ensures r.courseCode == form.courseCode && r.courseName == form.courseName
    ensures r.semester == NumberOf(form.semester, toNumber)
    ensures r.academicYear == NumberOf(form.academicYear, toNumber)
    ensures r.professorIds == Ids(form.professors) && r.assistantIds == Ids(form.assistants)
  {
    CoursePayload(form.courseCode, form.courseName, NumberOf(form.semester, toNumber),
                  NumberOf(form.academicYear, toNumber), Ids(form.professors), Ids(form.assistants))
  }

  /** Submitting the untouched creation form sends semester and year 0, not null. */
  lemma EmptyFormPayload(toNumber: string -> Option<int>)
    ensures Payload(INITIAL_FORM, toNumber) == CoursePayload("", "", Some(0), Some(0), [], [])
  {
  }

  /** `handleChangeField` on the form: the named text field takes the typed value. */
  function ChangeField(form: Form, name: string, value: string): (r: Form)
    ensures name == "courseCode" ==> r == form.(courseCode := value)
    ensures name == "courseName" ==> r == form.(courseName := value)
    ensures name == "semester" ==> r == form.(semester := FieldText(value))
    ensures name == "academicYear" ==> r == form.(academicYear := FieldText(value))
    ensures name !in {"courseCode", "courseName", "semester", "academicYear"} ==> r == form
  {
    match name
    case "courseCode" => form.(courseCode := value)
    case "courseName" => form.(courseName := value)
    case "semester" => form.(semester := FieldText(value))
    case "academicYear" => form.(academicYear := FieldText(value))
    case _ => form
  }
}
