/**
 * The users page: the partition of the user list by role, the administrator
 * gating of its actions, and the handlers that create, edit and delete users
 * and student profiles through the user and student hooks. The handlers'
 * effect is the sequence of hook calls they make and the dialog state they
 * leave. The student hook returns a fixed set of functions; calling one it does
 * not return throws TypeError, which the handlers catch.
 */
module UserGrid {
  import opened Wrappers
  import opened Text
  import opened Seqs
  import opened EditUserDialog
  import opened EditStudentDialog

  /** The functions `useStudents` returns. */
  const USE_STUDENTS_EXPORTS: set<string> :=
    {"onAdd", "onEdit", "onDelete", "findById", "findStudentExamRegistrationByStudentId",
     "findCourseEnrollmentByStudentId"}

  /** The grid asks the student hook for three functions it does not return. */
  lemma MissingStudentHooks()
    ensures "fetchStudents" !in USE_STUDENTS_EXPORTS
    ensures "onDeleteWithUser" !in USE_STUDENTS_EXPORTS && "onDeleteWithoutUser" !in USE_STUDENTS_EXPORTS
    ensures "onAdd" in USE_STUDENTS_EXPORTS && "onEdit" in USE_STUDENTS_EXPORTS
  {
  }

  /** The Staff table: the users whose role is STAFF, in list order. */
  function StaffUsers(users: seq<UserRow>): (r: seq<UserRow>)
    ensures forall u :: u in r <==> u in users && u.userRole == Some("STAFF")
  {
    Filter(users, (u: UserRow) => u.userRole == Some("STAFF"))
  }

  /** The Users table: the users whose role is USER, in list order. */
  function RegularUsers(users: seq<UserRow>): (r: seq<UserRow>)
    ensures forall u :: u in r <==> u in users && u.userRole == Some("USER")
  {
    Filter(users, (u: UserRow) => u.userRole == Some("USER"))
  }

  /**
   * A user is in the Staff table exactly when its role is STAFF and in the
   * Users table exactly when it is USER; administrators and students are in
   * neither.
   */
  lemma RolePartition(users: seq<UserRow>, i: int)
    requires 0 <= i < |users|
    ensures users[i] in StaffUsers(users) <==> users[i].userRole == Some("STAFF")
    ensures users[i] in RegularUsers(users) <==> users[i].userRole == Some("USER")
  {
    var staff := StaffUsers(users);
    if users[i] in staff {
      var j :| 0 <= j < |staff| && staff[j] == users[i];
      assert staff[j].userRole == Some("STAFF");
    }
    var regular := RegularUsers(users);
    if users[i] in regular {
      var j :| 0 <= j < |regular| && regular[j] == users[i];
      assert regular[j].userRole == Some("USER");
    }
  }

  predicate IsAdmin(role: Option<string>) {
    role == Some("ADMINISTRATOR")
  }

  /** The toolbar's controls: import, export and add, for an administrator only. */
  function ToolbarActions(role: Option<string>): (r: set<string>)
    ensures r != {} <==> IsAdmin(role)
    ensures IsAdmin(role) ==> r == {"import", "export", "add"}
  {
    if IsAdmin(role) then {"import", "export", "add"} else {}
  }

  /** A row's controls in each of the three tables: details, edit and delete, for an administrator only. */
  function RowActions(role: Option<string>): (r: set<string>)
    ensures r != {} <==> IsAdmin(role)
    ensures IsAdmin(role) ==> r == {"details", "edit", "delete"}
  {
    if IsAdmin(role) then {"details", "edit", "delete"} else {}
  }

  /** The loading view shows while either list is loading. */
  predicate IsLoading(usersLoading: bool, studentsLoading: bool) {
    usersLoading || studentsLoading
  }

  /** A call the grid makes on the user or student hook. */
  datatype HookCall =
    | AddUser(payload: map<string, string>)
    | EditUser(userId: Option<int>, dto: UserDto)
    | DeleteUser(deletedUserId: int)
    | AddStudent(studentIndex: string, major: string, userId: Option<int>)
    | EditStudent(studentId: int, studentDto: StudentDto)
    | DeleteStudentWithUser(studentId: int)
    | DeleteStudentWithoutUser(studentId: int)
    | FetchStudents

  /** The row the delete dialog was opened for. */
  datatype DeleteContext = UserTarget(user: UserRow) | StudentTarget(student: StudentRow)

  /** `studentIndex?.trim() && major?.trim()` on the add form. */
  predicate WantsProfile(form: map<string, string>) {
    "studentIndex" in form && !IsBlank(JavaScriptTrim, form["studentIndex"]) && "major" in form && !IsBlank(JavaScriptTrim, form["major"])
  }

  /** The profile check is the trimming test of the page: both fields present and non-empty once trimmed. */
  lemma WantsProfileIff(form: map<string, string>)
    ensures WantsProfile(form) <==>
              "studentIndex" in form && Trim(JavaScriptTrim, form["studentIndex"]) != "" && "major" in form && Trim(JavaScriptTrim, form["major"]) != ""
  {
    if "studentIndex" in form {
      TrimEmptyIffBlank(JavaScriptTrim, form["studentIndex"]);
    }
    if "major" in form {
      TrimEmptyIffBlank(JavaScriptTrim, form["major"]);
    }
  }

  /** A truthy id: present and not 0. */
  predicate TruthyId(id: Option<int>) {
    id.Some? && id.value != 0
  }

  /**
   * The edit of a user turns it into a student with profile data: it was not
   * a STUDENT, the new role is STUDENT, and index and major are non-blank.
   */
  predicate BecomesStudent(data: UserDto, extras: Option<Extras>) {
    && extras.Some? && extras.value.previousRole != Some("STUDENT") && data.userRole == "STUDENT"
    && extras.value.studentData.Some?
    && !IsBlank(JavaScriptTrim, extras.value.studentData.value.studentIndex)
    && !IsBlank(JavaScriptTrim, extras.value.studentData.value.major)
  }

  class Grid {
    /** The names of the functions the student hook returned. */
    const studentHooks: set<string>
    var role: Option<string>
    var addDialogOpen: bool
    var editDialogOpen: bool
    var deleteDialogOpen: bool
    var editStudentDialogOpen: bool
    var selectedUser: Option<UserRow>
    var selectedStudent: Option<StudentRow>
    var deleteContext: Option<DeleteContext>
    /** Every hook call made so far, in order. */
    var calls: seq<HookCall>

    /** An open dialog always has the row it works on. */
    predicate Valid()
      reads this
    {
      && (deleteDialogOpen <==> deleteContext.Some?)
      && (editDialogOpen ==> selectedUser.Some?)
      && (editStudentDialogOpen ==> selectedStudent.Some?)
    }

    constructor(studentHooks: set<string>)
      ensures this.studentHooks == studentHooks && role.None?
      ensures !addDialogOpen && !editDialogOpen && !deleteDialogOpen && !editStudentDialogOpen
      ensures selectedUser.None? && selectedStudent.None? && deleteContext.None? && calls == []
      ensures Valid()
    {
      this.studentHooks := studentHooks;
      role := None;
      addDialogOpen, editDialogOpen, deleteDialogOpen, editStudentDialogOpen := false, false, false, false;
      selectedUser, selectedStudent, deleteContext := None, None, None;
      calls := [];
    }

    /** The student hook's `name`, called: the call when the hook returned it, else nothing (TypeError). */
    function Invoke(name: string, call: HookCall): (r: seq<HookCall>)
      reads this
      ensures name in studentHooks <==> r == [call]
      ensures name !in studentHooks <==> r == []
    {
      if name in studentHooks then [call] else []
    }

    /** `setRole(u?.role || null)` with the current user from `me()`. */
    method ReceiveRole(meRole: Option<string>)
      modifies this`role
      ensures role.Some? <==> meRole.Some? && meRole.value != ""
      ensures role.Some? ==> role == meRole
    {
      role := if meRole.Some? && meRole.value != "" then meRole else None;
    }

    method OpenAdd()
      modifies this`addDialogOpen
      ensures addDialogOpen
    {
      addDialogOpen := true;
    }

    method OpenEditUser(user: UserRow)
      requires Valid()
      modifies this`selectedUser, this`editDialogOpen
      ensures selectedUser == Some(user) && editDialogOpen
      ensures Valid()
    {
      selectedUser := Some(user);
      editDialogOpen := true;
    }

    method OpenEditStudent(student: StudentRow)
      requires Valid()
      modifies this`selectedStudent, this`editStudentDialogOpen
      ensures selectedStudent == Some(student) && editStudentDialogOpen
      ensures Valid()
    {
      selectedStudent := Some(student);
      editStudentDialogOpen := true;
    }

    method OpenDeleteUser(user: UserRow)
      requires Valid()
      modifies this`deleteContext, this`deleteDialogOpen
      ensures deleteContext == Some(UserTarget(user)) && deleteDialogOpen
      ensures Valid()
    {
      deleteContext := Some(UserTarget(user));
      deleteDialogOpen := true;
    }

    method OpenDeleteStudent(student: StudentRow)
      requires Valid()
      modifies this`deleteContext, this`deleteDialogOpen
      ensures deleteContext == Some(StudentTarget(student)) && deleteDialogOpen
      ensures Valid()
    {
      deleteContext := Some(StudentTarget(student));
      deleteDialogOpen := true;
    }

    /**
     * `handleCreateUser`: the user is added with the form minus the student
     * fields. If adding throws, nothing else happens and the dialog stays
     * open. Otherwise a profile is added, with the fields as typed, exactly
     * when both student fields are non-blank (whatever the role) and the
     * created user has an id; then the dialog closes.
     */
    method CreateUser(form: map<string, string>, created: Result<Option<int>>)
      modifies this`calls, this`addDialogOpen
      ensures created.Failure? ==>
                calls == old(calls) + [AddUser(form - {"studentIndex", "major"})]
                && addDialogOpen == old(addDialogOpen)
      ensures created.Success? ==> !addDialogOpen
      ensures created.Success? && WantsProfile(form) && TruthyId(created.value) ==>
                calls == old(calls) + [AddUser(form - {"studentIndex", "major"})]
                         + Invoke("onAdd", AddStudent(form["studentIndex"], form["major"], created.value))
      ensures created.Success? && !(WantsProfile(form) && TruthyId(created.value)) ==>
                calls == old(calls) + [AddUser(form - {"studentIndex", "major"})]
    {
      var payload := form - {"studentIndex", "major"};
      calls := calls + [AddUser(payload)];
      if created.Failure? {
        return;
      }
      var createdUser := created.value;
      if WantsProfile(form) {
        if createdUser.Some? && createdUser.value != 0 {
          if "onAdd" in studentHooks {
            calls := calls + [AddStudent(form["studentIndex"], form["major"], createdUser)];
          }
        }
      }
      addDialogOpen := false;
    }

    /**
     * `handleUpdateUser`: the user is edited first (the hook swallows errors,
     * so this never stops the handler). A user who becomes a student gets a
     * profile added and the students refetched; a missing hook function throws
     * and leaves the dialog open. Otherwise the dialog closes.
     */
    method UpdateUser(id: int, data: UserDto, extras: Option<Extras>)
      requires Valid()
      modifies this`calls, this`selectedUser, this`editDialogOpen
      ensures !BecomesStudent(data, extras) ==>
                calls == old(calls) + [EditUser(Some(id), data)] && selectedUser.None? && !editDialogOpen
      ensures BecomesStudent(data, extras) && "onAdd" !in studentHooks ==>
                calls == old(calls) + [EditUser(Some(id), data)]
                && selectedUser == old(selectedUser) && editDialogOpen == old(editDialogOpen)
      ensures BecomesStudent(data, extras) && "onAdd" in studentHooks ==>
                var profile := extras.value.studentData.value;
                |calls| >= |old(calls)| + 2 && calls[..|old(calls)| + 2]
                == old(calls) + [EditUser(Some(id), data), AddStudent(profile.studentIndex, profile.major, Some(id))]
      ensures BecomesStudent(data, extras) && "onAdd" in studentHooks && "fetchStudents" !in studentHooks ==>
                |calls| == |old(calls)| + 2
                && selectedUser == old(selectedUser) && editDialogOpen == old(editDialogOpen)
      ensures BecomesStudent(data, extras) && "onAdd" in studentHooks && "fetchStudents" in studentHooks ==>
                |calls| == |old(calls)| + 3 && calls[|calls| - 1] == FetchStudents
                && selectedUser.None? && !editDialogOpen
      ensures Valid()
    {
      calls := calls + [EditUser(Some(id), data)];
      if extras.Some? {
        var previousRole := extras.value.previousRole;
        var studentData := extras.value.studentData;
        var becameStudent := previousRole != Some("STUDENT") && data.userRole == "STUDENT";
        if becameStudent && studentData.Some?
           && !IsBlank(JavaScriptTrim, studentData.value.studentIndex) && !IsBlank(JavaScriptTrim, studentData.value.major) {
          if "onAdd" !in studentHooks {
            return;
          }
          calls := calls + [AddStudent(studentData.value.studentIndex, studentData.value.major, Some(id))];
          if "fetchStudents" !in studentHooks {
            return;
          }
          calls := calls + [FetchStudents];
        }
      }
      selectedUser := None;
      editDialogOpen := false;
    }

    /**
     * `handleSaveEditStudent`: the user is edited; then, for the STUDENT role,
     * the profile is edited, and for any other role it is deleted without its
     * user; then the students are refetched and the dialog closes. The first
     * missing hook function throws and leaves the dialog open.
     */
    method SaveEditStudent(student: StudentRow, studentDto: StudentDto, userDto: UserDto)
      requires Valid()
      modifies this`calls, this`selectedStudent, this`editStudentDialogOpen
      ensures var second := if userDto.userRole == "STUDENT" then "onEdit" else "onDeleteWithoutUser";
              var call := if userDto.userRole == "STUDENT" then EditStudent(student.id, studentDto)
                          else DeleteStudentWithoutUser(student.id);
              && calls == old(calls) + [EditUser(student.userId, userDto)] + Invoke(second, call)
                          + (if second in studentHooks then Invoke("fetchStudents", FetchStudents) else [])
              && if second in studentHooks && "fetchStudents" in studentHooks
                 then selectedStudent.None? && !editStudentDialogOpen
                 else selectedStudent == old(selectedStudent) && editStudentDialogOpen == old(editStudentDialogOpen)
      ensures Valid()
    {
      calls := calls + [EditUser(student.userId, userDto)];
      if userDto.userRole == "STUDENT" {
        if "onEdit" !in studentHooks {
          return;
        }
        calls := calls + [EditStudent(student.id, studentDto)];
      } else {
        if "onDeleteWithoutUser" !in studentHooks {
          return;
        }
        calls := calls + [DeleteStudentWithoutUser(student.id)];
      }
      if "fetchStudents" !in studentHooks {
        return;
      }
      calls := calls + [FetchStudents];
      selectedStudent := None;
      editStudentDialogOpen := false;
    }

    /**
     * `handleConfirmDelete`: nothing without a delete context. A user row is
     * deleted; a student row is deleted with its user when the hook returned
     * that function. Either way the dialog closes and the context is cleared.
     */
    method ConfirmDelete()
      requires Valid()
      modifies this`calls, this`deleteContext, this`deleteDialogOpen
      ensures old(deleteContext).None? ==> calls == old(calls) && deleteContext.None? && !deleteDialogOpen
      ensures old(deleteContext).Some? && old(deleteContext).value.UserTarget? ==>
                calls == old(calls) + [DeleteUser(old(deleteContext).value.user.id)]
      ensures old(deleteContext).Some? && old(deleteContext).value.StudentTarget? ==>
                calls == old(calls) + Invoke("onDeleteWithUser",
                                             DeleteStudentWithUser(old(deleteContext).value.student.id))
      ensures deleteContext.None? && !deleteDialogOpen
      ensures Valid()
    {
      if deleteContext.None? {
        return;
      }
      match deleteContext.value {
        case UserTarget(user) =>
          calls := calls + [DeleteUser(user.id)];
        case StudentTarget(student) =>
          if "onDeleteWithUser" in studentHooks {
            calls := calls + [DeleteStudentWithUser(student.id)];
          }
      }
      deleteContext := None;
      deleteDialogOpen := false;
    }
  }
}
