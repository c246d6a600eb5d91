/**
 * The user service: reads of the `app_users` table, the in-place update of a
 * stored user, deletion with its cascade, registration and login. The password
 * encoder is a parameter of the operations that use it.
 */
module UserService {
  import opened Wrappers
  import opened Entities
  import opened Tables

  /** The hash the password encoder computes for a non-null raw password. */
  type Hash = string -> string

  /** `passwordEncoder.encode(raw)`: the BCrypt encoder refuses a null password. */
  function Encode(hash: Hash, raw: Option<string>): (r: Result<string>)
    ensures r.Failure? <==> raw.None?
    ensures r.Failure? ==> r.exception == "IllegalArgumentException"
    ensures r.Success? ==> r.value == hash(raw.value)
  {
    if raw.None? then Failure("IllegalArgumentException", "rawPassword cannot be null")
    else Success(hash(raw.value))
  }

  /** `findById`: the user stored under `id`, if any. */
  function FindById(db: Database, id: int): (r: Option<User>)
    reads db`users
    ensures r.Some? <==> id in db.users
    ensures r.Some? ==> r.value in db.users.Values
  {
    if id in db.users then Some(db.users[id]) else None
  }

  /**
   * `findByEmail`: the user with this e-mail address. The unique constraint on
   * the column guarantees there is at most one.
   */
  function FindByEmail(db: Database, email: string): (r: Option<User>)
    requires db.UniqueEmails()
    reads db`users, db.users.Values`email
    ensures r.None? <==> !db.EmailTaken(email)
    ensures r.Some? ==> r.value in db.users.Values && r.value.email == Some(email)
    ensures r.Some? ==> forall k :: k in db.users && db.users[k].email == Some(email) ==> db.users[k] == r.value
  {
    if exists k :: k in db.users && db.users[k].email == Some(email) then
      var k :| k in db.users && db.users[k].email == Some(email);
      Some(db.users[k])
    else
      None
  }

  /**
   * `login`: the user with this e-mail address, or UsernameNotFoundException
   * carrying the address. The password is not compared with the stored one.
   */
  function Login(db: Database, email: string, password: string): (r: Result<User>)
    requires db.UniqueEmails()
    reads db`users, db.users.Values`email
    ensures r.Failure? <==> !db.EmailTaken(email)
    ensures r.Failure? ==> r.exception == "UsernameNotFoundException" && r.message == email
    ensures r.Success? ==> r.value in db.users.Values && r.value.email == Some(email)
    ensures r.Success? ==> Some(r.value) == FindByEmail(db, email)
  {
    match FindByEmail(db, email)
    case Some(u) => Success(u)
    case None => Failure("UsernameNotFoundException", email)
  }

  /**
   * `update`: the stored user under `id` takes the names, e-mail, role and
   * student profile of `user` and the encoding of its password, through its
   * setters, and is saved; its id and staff assignments stay. A profile it no
   * longer has is an orphan and is deleted with its registrations. An absent
   * id changes nothing. A null password makes the encoder throw; a null or
   * over-long name or e-mail or a null role (the columns of `app_users`), an
   * e-mail address of another user (`uk_app_users_email`) or an enrollment of
   * the orphaned profile (`fk_enrollment_student`) makes the save fail; in
   * all these cases no row changes.
   */
  method Update(db: Database, id: int, user: User, hash: Hash) returns (r: Result<Option<User>>)
    requires db.Valid()
    modifies if id in db.users then {db.users[id]} else {}, (if user.student == null then {} else {user.student})`user
    modifies db`students, db`registrations
    ensures id !in old(db.users) ==> r == Success(None)
    ensures id in old(db.users) ==>
              (r.Failure? <==> old(user.password).None? || !old(user.FitsColumns()) || old(EmailClash(db, id, user.email))
                               || old(db.Enrolled(db.ProfilesOf(db.users[id], user.student))))
    ensures id in old(db.users) && old(user.password).None? ==>
              r == Failure("IllegalArgumentException", "rawPassword cannot be null")
    ensures id in old(db.users) && old(user.password).Some? && !old(user.FitsColumns()) ==>
              r == Failure("DataIntegrityViolationException", old(user.ColumnViolation()).value)
    ensures id in old(db.users) && old(user.password).Some? && old(user.FitsColumns())
            && old(EmailClash(db, id, user.email)) ==>
              r == Failure("DataIntegrityViolationException", "uk_app_users_email")
    ensures id in old(db.users) && old(user.password).Some? && old(user.FitsColumns())
            && !old(EmailClash(db, id, user.email))
            && old(db.Enrolled(db.ProfilesOf(db.users[id], user.student))) ==>
              r == Failure("DataIntegrityViolationException", "fk_enrollment_student")
    ensures !r.Success? || r.value.None? ==>
              && (id in old(db.users) ==> unchanged(old(db.users[id])))
              && (old(user.student) != null ==> unchanged(old(user.student)))
              && db.students == old(db.students) && db.registrations == old(db.registrations)
    ensures r.Success? && r.value.Some? ==>
              && r.value == Some(old(db.users[id])) && old(user.password).Some?
              && UserUpdated(db, id, user, old(user.student), hash(old(user.password).value))
              && db.users[id].FitsColumns()
    ensures db.Valid()
    ensures old(db.UsersKeyed()) ==> db.UsersKeyed()
    ensures old(db.StudentsKeyed()) ==> db.StudentsKeyed()
    ensures old(db.Unique() && db.UsersKeyed() && db.StudentsKeyed()) ==> db.Unique()
  {
    if id !in db.users {
      return Success(None);
    }
    var existing := db.users[id];
    var password := Encode(hash, user.password);
    if password.Failure? {
      return Failure(password.exception, password.message);
    }
    var violated := Save(db, id, user, password.value);
    if violated.Some? {
      return Failure("DataIntegrityViolationException", violated.value);
    }
    r := Success(Some(existing));
  }

  /**
   * The flush of `save`: the user's row is written first, so a column of
   * `app_users` the new values break, and then an e-mail address another
   * user has, fail before anything else; then the orphaned profiles are
   * deleted, unless one of them is enrolled, and the setters take effect.
   */
  method Save(db: Database, id: int, user: User, password: string) returns (violated: Option<string>)
    requires db.Valid() && id in db.users
    modifies db.users[id], (if user.student == null then {} else {user.student})`user
    modifies db`students, db`registrations
    ensures violated.Some? <==>
              !old(user.FitsColumns()) || old(EmailClash(db, id, user.email))
              || old(db.Enrolled(db.ProfilesOf(db.users[id], user.student)))
    ensures !old(user.FitsColumns()) ==> violated == old(user.ColumnViolation())
    ensures old(user.FitsColumns()) && old(EmailClash(db, id, user.email)) ==>
              violated == Some("uk_app_users_email")
    ensures old(user.FitsColumns()) && !old(EmailClash(db, id, user.email)) && violated.Some? ==>
              violated == Some("fk_enrollment_student")
    ensures violated.Some? ==>
              && unchanged(old(db.users[id])) && (old(user.student) != null ==> unchanged(old(user.student)))
              && db.students == old(db.students) && db.registrations == old(db.registrations)
    ensures violated.None? ==>
              UserUpdated(db, id, user, old(user.student), password) && db.users[id].FitsColumns()
    ensures db.Valid()
    ensures old(db.StudentsKeyed()) ==> db.StudentsKeyed()
    ensures old(db.Unique() && db.UsersKeyed() && db.StudentsKeyed()) ==> db.Unique()
  {
    violated := user.ColumnViolation();
    if violated.Some? {
      return;
    }
    if EmailClash(db, id, user.email) {
      return Some("uk_app_users_email");
    }
    var existing := db.users[id];
    violated := db.RemoveOrphanProfiles(existing, user.student);
    if violated.None? {
      Assign(db, id, user, password);
    }
  }

  /** The e-mail address `email` is stored for a user other than the one under `id`. */
  predicate EmailClash(db: Database, id: int, email: Option<string>)
    reads db`users, db.users.Values`email
  {
    email.Some? && db.EmailTakenByOther(email.value, id)
  }

  /**
   * The setters of `update` once the save is known to succeed: the e-mail is
   * free and the only stored profile of the user is the new one, if any.
   */
  method Assign(db: Database, id: int, user: User, password: string)
    requires id in db.users && !EmailClash(db, id, user.email)
    requires forall j :: j in db.students && db.students[j].user == db.users[id] ==> db.students[j] == user.student
    modifies db.users[id], (if user.student == null then {} else {user.student})`user
    ensures var u := db.users[id];
      && u.firstName == old(user.firstName) && u.lastName == old(user.lastName)
      && u.email == old(user.email) && u.password == Some(password)
      && u.userRole == old(user.userRole) && u.student == old(user.student)
      && u.id == old(u.id) && u.courseStaffAssignments == old(u.courseStaffAssignments)
      && (u.student != null ==> u.student.user == u)
    ensures old(db.Unique() && db.UsersKeyed() && db.StudentsKeyed()) ==> db.Unique()
  {
    var existing := db.users[id];
    var profile := user.student;
    SetFields(db, id, existing, user.firstName, user.lastName, user.email, password, user.userRole);
    LinkProfile(db, existing, profile);
  }

  /** The scalar setters, with an e-mail address no other user has. */
  method SetFields(db: Database, id: int, u: User, firstName: Option<string>, lastName: Option<string>,
                   email: Option<string>, password: string, userRole: Option<UserRole>)
    requires id in db.users && db.users[id] == u && !EmailClash(db, id, email)
    modifies u`firstName, u`lastName, u`email, u`password, u`userRole
    ensures u.firstName == firstName && u.lastName == lastName && u.email == email
    ensures u.password == Some(password) && u.userRole == userRole
    ensures old(db.Unique() && db.UsersKeyed()) ==> db.Unique()
    ensures old(db.StudentsKeyed()) ==> db.StudentsKeyed()
  {
    u.firstName, u.lastName, u.email, u.password, u.userRole := firstName, lastName, email, Some(password), userRole;
  }

  /** `setStudent` with a profile that is the only stored one of the user. */
  method LinkProfile(db: Database, u: User, profile: Student?)
    requires forall j :: j in db.students && db.students[j].user == u ==> db.students[j] == profile
    modifies u`student, (if profile == null then {} else {profile})`user
    ensures u.student == profile && (profile != null ==> profile.user == u)
    ensures old(db.Unique() && db.StudentsKeyed()) ==> db.Unique()
  {
    u.SetStudent(profile);
  }

  /**
   * The state after a successful `update` of the user under `id` from `user`,
   * whose profile was `profile`, with the encoded `password`: the stored user
   * has the new fields, keeps its
   * id and assignments, is linked with the new profile both ways, and its
   * other profiles are gone with their registrations.
   */
  twostate predicate UserUpdated(db: Database, id: int, user: User, profile: Student?, password: string)
    reads db, db.users.Values, user, profile
  {
    && id in old(db.users) && db.users == old(db.users)
    && var u := db.users[id];
    && u.firstName == old(user.firstName) && u.lastName == old(user.lastName)
    && u.email == old(user.email) && u.password == Some(password)
    && u.userRole == old(user.userRole) && u.student == profile
    && u.id == old(u.id) && u.courseStaffAssignments == old(u.courseStaffAssignments)
    && (profile != null ==> profile.user == u)
    && db.students == old(db.students) - old(ProfileIds(db.students, u, profile))
    && db.registrations == old(db.registrations) - old(RegistrationsOfProfiles(db.registrations, db.ProfilesOf(u, profile)))
  }

  /**
   * `deleteById`: a stored user is removed together with its student profile,
   * that profile's exam registrations and its staff assignments, and is
   * returned; an absent id changes nothing. An enrollment of the profile or a
   * password-reset token of the user makes the delete fail, and then no row
   * changes.
   */
  method DeleteById(db: Database, id: int) returns (r: Result<Option<User>>)
    requires db.Valid()
    modifies db`users, db`students, db`registrations, db`assignments
    ensures id !in old(db.users) ==> r == Success(None)
    ensures id in old(db.users) ==>
              (r.Failure? <==> old(db.UserDeleteViolation(db.users[id])).Some?)
    ensures id in old(db.users) && r.Success? ==> r.value.Some?
    ensures r.Failure? ==> r.exception == "DataIntegrityViolationException"
                           && Some(r.message) == old(db.UserDeleteViolation(db.users[id]))
    ensures !r.Success? || r.value.None? ==>
              && db.users == old(db.users) && db.students == old(db.students)
              && db.registrations == old(db.registrations) && db.assignments == old(db.assignments)
    ensures r.Success? && r.value.Some? ==> r.value == Some(old(db.users[id])) && db.UserRemoved(id)
    ensures db.Valid()
    ensures old(db.UsersKeyed()) ==> db.UsersKeyed()
    ensures old(db.Unique()) ==> db.Unique()
  {
    var found := FindById(db, id);
    if found.None? {
      return Success(None);
    }
    var violated := db.DeleteUser(id);
    if violated.Some? {
      return Failure("DataIntegrityViolationException", violated.value);
    }
    r := Success(found);
  }

  /**
   * `register`: saves a new user built from the names, e-mail and role of
   * `user` and the encoding of its password. The request is not validated:
   * a null password makes the encoder throw, a null or over-long name or
   * e-mail or a null role makes the save fail on the columns of `app_users`,
   * and an e-mail address already stored makes it fail on
   * `uk_app_users_email`; in each case nothing is stored.
   */
  method Register(db: Database, user: User, hash: Hash) returns (r: Result<User>)
    requires db.Valid()
    modifies db`users, db`nextUserId
    ensures user.password.None? ==> r == Failure("IllegalArgumentException", "rawPassword cannot be null")
    ensures user.password.Some? && !user.FitsColumns() ==>
              r == Failure("DataIntegrityViolationException", user.ColumnViolation().value)
    ensures user.password.Some? && user.FitsColumns() && old(db.EmailTaken(user.email.value)) ==>
              r == Failure("DataIntegrityViolationException", "uk_app_users_email")
    ensures r.Success? <==> user.password.Some? && user.FitsColumns() && !old(db.EmailTaken(user.email.value))
    ensures r.Failure? ==> db.users == old(db.users) && db.nextUserId == old(db.nextUserId)
    ensures r.Success? ==>
              && fresh(r.value)
              && r.value.firstName == user.firstName && r.value.lastName == user.lastName
              && r.value.email == user.email && r.value.password == Some(hash(user.password.value))
              && r.value.userRole == user.userRole
              && r.value.student == null && r.value.courseStaffAssignments == []
              && r.value.id == Some(old(db.nextUserId)) && db.users == old(db.users)[old(db.nextUserId) := r.value]
              && db.nextUserId == old(db.nextUserId) + 1
    ensures db.Valid()
    ensures old(db.UsersKeyed()) ==> db.UsersKeyed()
    ensures old(db.Unique()) ==> db.Unique()
  {
    var password := Encode(hash, user.password);
    if password.Failure? {
      return Failure(password.exception, password.message);
    }
    var u := new User(user.firstName, user.lastName, user.email, Some(password.value), user.userRole);
    var violated := db.PersistUser(u);
    if violated.Some? {
      return Failure("DataIntegrityViolationException", violated.value);
    }
    r := Success(u);
  }
}
