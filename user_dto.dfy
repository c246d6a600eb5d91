/** The request record for creating or updating a user, and its mappings to and from `User`. */
module UserDto {
  import opened Wrappers
  import opened Text
  import opened Entities
  import opened Constraints

  datatype CreateUserDto = CreateUserDto(
    firstName: Option<string>,
    lastName: Option<string>,
    email: Option<string>,
    password: Option<string>,
    userRole: Option<UserRole>)

  /**
   * The messages of the constraints `d` breaks. `isEmail` is the `@Email`
   * validator's test of a non-null address.
   */
  function Violations(d: CreateUserDto, isEmail: string -> bool): (r: set<string>)
    ensures d.password.None? ==> "Password must be between 6 and 100 characters" !in r
    ensures d.email.None? ==>
              "Email is required" in r && "Email must be valid" !in r && "Email must be at most 150 characters" !in r
  {
    Check(NotBlank(d.firstName), "First name is required")
    + Check(SizeAtMost(d.firstName, 80), "First name must be at most 80 characters")
    + Check(NotBlank(d.lastName), "Last name is required")
    + Check(SizeAtMost(d.lastName, 80), "Last name must be at most 80 characters")
    + Check(NotBlank(d.email), "Email is required")
    + Check(d.email.None? || isEmail(d.email.value), "Email must be valid")
    + Check(SizeAtMost(d.email, 150), "Email must be at most 150 characters")
    + Check(SizeBetween(d.password, 6, 100), "Password must be between 6 and 100 characters")
    + Check(NotNull(d.userRole), "User role is required")
  }

  /**
   * A user request is accepted exactly when both names are non-blank and at
   * most 80 characters, the e-mail address is non-blank, well formed and at most
   * 150 characters, the password is absent or 6..100 characters, and the role is
   * given.
   */
  lemma ValidIff(d: CreateUserDto, isEmail: string -> bool)
    ensures Violations(d, isEmail) == {} <==>
              && d.firstName.Some? && !IsBlank(JavaTrim, d.firstName.value) && Utf16Length(d.firstName.value) <= NAME_LENGTH
              && d.lastName.Some? && !IsBlank(JavaTrim, d.lastName.value) && Utf16Length(d.lastName.value) <= NAME_LENGTH
              && d.email.Some? && !IsBlank(JavaTrim, d.email.value) && isEmail(d.email.value)
              && Utf16Length(d.email.value) <= EMAIL_LENGTH
              && (d.password.None? || 6 <= Utf16Length(d.password.value) <= 100)
              && d.userRole.Some?
  {
  }

  /** An accepted request fits the columns of `app_users`. */
  lemma ValidFitsColumns(d: CreateUserDto, isEmail: string -> bool)
    requires Violations(d, isEmail) == {}
    ensures FitsColumn(d.firstName, NAME_LENGTH) && FitsColumn(d.lastName, NAME_LENGTH)
    ensures FitsColumn(d.email, EMAIL_LENGTH) && d.userRole.Some?
  {
    ValidIff(d, isEmail);
  }

  /** `from(user)`: the password is never exposed. */
  function From(u: User): (r: CreateUserDto)
    reads u
    ensures r.firstName == u.firstName && r.lastName == u.lastName && r.email == u.email
    ensures r.userRole == u.userRole
    ensures r.password.None?
  {
    CreateUserDto(u.firstName, u.lastName, u.email, None, u.userRole)
  }

  /**
   * `toUser()`: a new user with the five fields, no id, no student profile and
   * no staff assignments. Mapping it back gives the request without its
   * password.
   */
  method ToUser(d: CreateUserDto) returns (u: User)
    ensures fresh(u)
    ensures u.firstName == d.firstName && u.lastName == d.lastName && u.email == d.email
    ensures u.password == d.password && u.userRole == d.userRole
    ensures u.id.None? && u.student == null && u.courseStaffAssignments == []
    ensures From(u) == d.(password := None)
  {
    u := new User(d.firstName, d.lastName, d.email, d.password, d.userRole);
  }

  /** `from(users)`: one record per user, in the same order. */
  function FromAll(us: seq<User>): (r: seq<CreateUserDto>)
    reads set u | u in us
    ensures |r| == |us|
    ensures forall i :: 0 <= i < |us| ==> r[i] == From(us[i])
  {
    if |us| == 0 then [] else [From(us[0])] + FromAll(us[1..])
  }
}
