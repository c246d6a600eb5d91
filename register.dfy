/**
 * The registration form: the validation of its five fields with one message
 * per failing field, the request it sends (always for the USER role, never
 * with the confirmation), and how editing and submitting change the form's
 * errors. The registration call is a parameter that answers whether the
 * request succeeded.
 */
module Register {
  import opened Wrappers
  import opened Text

  /** The form's fields. */
  const FIELDS: set<string> := {"firstName", "lastName", "email", "password", "confirmPassword"}

  /** `initialFormData`: every field empty. */
  function InitialForm(): (r: map<string, string>)
    ensures r.Keys == FIELDS && forall k :: k in r ==> r[k] == ""
  {
    map k | k in FIELDS :: ""
  }

  const PASSWORD_LENGTH_MESSAGE := "Password must be between 6 and 20 characters."
  const REGISTRATION_FAILED := "Registration failed. Please try again."

  /** The password's `length`, in UTF-16 code units, is outside 6..20. */
  function BadLength(password: string): (r: bool)
    ensures |password| < 3 || |password| > 20 ==> r
    ensures 6 <= |password| <= 10 ==> !r
  {
    Utf16Length(password) < 6 || Utf16Length(password) > 20
  }

  /**
   * The message `validate` records for one field, if any: a missing name or
   * e-mail is required; a missing password is required and a present one
   * must have 6 to 20 characters; a missing confirmation must be given and a
   * present one must equal the password.
   */
  function Message(form: map<string, string>, field: string): (r: Option<string>)
    requires FIELDS <= form.Keys
    ensures field !in FIELDS ==> r.None?
    ensures field in FIELDS && form[field] == "" ==> r.Some?
    ensures field == "password" && r.None? ==> 6 <= Utf16Length(form["password"]) <= 20
    ensures field == "confirmPassword" && r.None? ==> form["confirmPassword"] == form["password"]
  {
    match field
    case "firstName" => if form["firstName"] == "" then Some("First name is required.") else None
    case "lastName" => if form["lastName"] == "" then Some("Last name is required.") else None
    case "email" => if form["email"] == "" then Some("E-mail is required.") else None
    case "password" =>
      if form["password"] == "" then Some("Password is required.")
      else if BadLength(form["password"]) then Some(PASSWORD_LENGTH_MESSAGE)
      else None
    case "confirmPassword" =>
      if form["confirmPassword"] == "" then Some("Please confirm your password.")
      else if form["password"] != form["confirmPassword"] then Some("Passwords do not match.")
      else None
    case _ => None
  }

  /** The errors `validate` records, one per failing field. */
  function Errors(form: map<string, string>): (r: map<string, string>)
    requires FIELDS <= form.Keys
    ensures r.Keys <= FIELDS
    ensures "firstName" in r <==> form["firstName"] == ""
    ensures "lastName" in r <==> form["lastName"] == ""
    ensures "email" in r <==> form["email"] == ""
    ensures "password" in r <==> form["password"] == "" || BadLength(form["password"])
    ensures "confirmPassword" in r <==> form["confirmPassword"] == "" || form["confirmPassword"] != form["password"]
    ensures "firstName" in r ==> r["firstName"] == "First name is required."
    ensures "lastName" in r ==> r["lastName"] == "Last name is required."
    ensures "email" in r ==> r["email"] == "E-mail is required."
    ensures "password" in r ==>
              r["password"] == if form["password"] == "" then "Password is required." else PASSWORD_LENGTH_MESSAGE
    ensures "confirmPassword" in r ==>
              r["confirmPassword"] == if form["confirmPassword"] == "" then "Please confirm your password."
                                      else "Passwords do not match."
  {
    map field | field in FIELDS && Message(form, field).Some? :: Message(form, field).value
  }

  /**
   * `validate`'s answer: no error was recorded, which is exactly a form with
   * both names, an e-mail, a password of 6 to 20 characters and a matching
   * confirmation.
   */
  function Validate(form: map<string, string>): (r: bool)
    requires FIELDS <= form.Keys
    ensures r <==> && form["firstName"] != "" && form["lastName"] != "" && form["email"] != ""
                   && 6 <= Utf16Length(form["password"]) <= 20 && form["confirmPassword"] == form["password"]
  {
    var errors := Errors(form);
    assert errors.Keys == {} ==> errors == map[];
    errors.Keys == {}
  }

  /** The request body of a registration. */
  datatype RegisterPayload = RegisterPayload(
    firstName: string,
    lastName: string,
    email: string,
    password: string,
    userRole: string)

  /** The payload: the four fields as typed, and the role USER. */
  function Payload(form: map<string, string>): (r: RegisterPayload)
    requires FIELDS <= form.Keys
    ensures r.userRole == "USER"
    ensures r.firstName == form["firstName"] && r.lastName == form["lastName"]
    ensures r.email == form["email"] && r.password == form["password"]
  {
    RegisterPayload(form["firstName"], form["lastName"], form["email"], form["password"], "USER")
  }

  /**
   * Whatever is typed, a payload built from a valid form carries a password
   * of 6 to 20 characters that the user typed twice, and no field empty.
   */
  lemma ValidPayload(form: map<string, string>)
    requires FIELDS <= form.Keys && Validate(form)
    ensures var p := Payload(form);
            && p.firstName != "" && p.lastName != "" && p.email != ""
            && 6 <= Utf16Length(p.password) <= 20 && p.password == form["confirmPassword"]
  {
  }

  /** The page's state. */
  class Form {
    var formData: map<string, string>
    var fieldErrors: map<string, string>
    var generalError: string
    var navigatedTo: Option<string>

    constructor()
      ensures formData == InitialForm() && fieldErrors == map[] && generalError == "" && navigatedTo == None
    {
      formData, fieldErrors, generalError, navigatedTo := InitialForm(), map[], "", None;
    }

    predicate Valid()
      reads this
    {
      FIELDS <= formData.Keys
    }

    /** `handleChange`: the field takes the value, and its error and the general error are cleared. */
    method HandleChange(name: string, value: string)
      modifies this
      ensures formData == old(formData)[name := value]
      ensures fieldErrors == old(fieldErrors)[name := ""]
      ensures generalError == ""
      ensures navigatedTo == old(navigatedTo)
      ensures old(Valid()) ==> Valid()
    {
      formData := formData[name := value];
      fieldErrors := fieldErrors[name := ""];
      generalError := "";
    }

    /**
     * `handleSubmit`. The errors of the form replace the shown ones; an invalid
     * form sends nothing. A valid form sends its payload: on success the form
     * is reset and the page moves to /login, on failure the general error
     * says so and the form is kept.
     */
    method HandleSubmit(register: RegisterPayload -> bool) returns (sent: Option<RegisterPayload>)
      requires Valid()
      modifies this
      ensures Valid()
      ensures sent.Some? <==> Validate(old(formData))
      ensures sent.Some? ==> sent.value == Payload(old(formData))
      ensures sent.None? ==>
                && fieldErrors == Errors(old(formData)) && fieldErrors.Keys != {}
                && formData == old(formData) && generalError == old(generalError)
                && navigatedTo == old(navigatedTo)
      ensures sent.Some? && register(sent.value) ==>
                formData == InitialForm() && fieldErrors == map[] && generalError == ""
                && navigatedTo == Some("/login")
      ensures sent.Some? && !register(sent.value) ==>
                formData == old(formData) && fieldErrors == map[] && generalError == REGISTRATION_FAILED
                && navigatedTo == old(navigatedTo)
    {
      var errors := Errors(formData);
      fieldErrors := errors;
      if !Validate(formData) {
        return None;
      }
      var payload := Payload(formData);
      sent := Some(payload);
      if register(payload) {
        formData, fieldErrors, generalError := InitialForm(), map[], "";
        navigatedTo := Some("/login");
      } else {
        generalError := REGISTRATION_FAILED;
      }
    }
  }
}
