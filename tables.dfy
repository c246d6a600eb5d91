/**
 * The relational store behind the JPA repositories: one map per table from
 * the row id to the managed object, the unique constraints of each table, and
 * the repository saves and deletes. A delete cascades to the rows the deleted
 * entity owns (its `cascade = ALL, orphanRemoval = true` collections), that is,
 * to the rows whose foreign key points at it.
 */
module Tables {
  import opened Wrappers
  import opened Entities

  class Database {
    var users: map<int, User>
    var students: map<int, Student>
    var courses: map<int, Course>
    var exams: map<int, Exam>
    var registrations: map<int, StudentExamRegistration>
    var assignments: map<int, CourseStaffAssignment>
    var enrollments: map<int, CourseEnrollment>
    /** `password_reset_tokens`; no operation here inserts into it. */
    var resetTokens: map<int, PasswordResetToken>
    /**
     * The next value of each table's identity column (`GenerationType.IDENTITY`);
     * every id in use in that table is below it.
     */
    var nextUserId: int
    var nextStudentId: int
    var nextCourseId: int
    var nextExamId: int
    var nextRegistrationId: int
    var nextAssignmentId: int
    var nextEnrollmentId: int

    /** Every id in use in a table is below that table's next identity value. */
    ghost predicate Valid()
      reads this`users, this`students, this`courses, this`exams, this`registrations,
        this`assignments, this`enrollments
      reads this`nextUserId, this`nextStudentId, this`nextCourseId, this`nextExamId,
        this`nextRegistrationId, this`nextAssignmentId, this`nextEnrollmentId
    {
      && (forall k :: k in users ==> k < nextUserId)
      && (forall k :: k in students ==> k < nextStudentId)
      && (forall k :: k in courses ==> k < nextCourseId)
      && (forall k :: k in exams ==> k < nextExamId)
      && (forall k :: k in registrations ==> k < nextRegistrationId)
      && (forall k :: k in assignments ==> k < nextAssignmentId)
      && (forall k :: k in enrollments ==> k < nextEnrollmentId)
    }

    /** Every row of `users` is stored under its own id. */
    ghost predicate UsersKeyed()
      reads this`users, users.Values`id
    {
      forall k :: k in users ==> users[k].id == Some(k)
    }

    /** Every row of `students` is stored under its own id. */
    ghost predicate StudentsKeyed()
      reads this`students, students.Values`id
    {
      forall k :: k in students ==> students[k].id == Some(k)
    }

    /** Every row of `courses` is stored under its own id. */
    ghost predicate CoursesKeyed()
      reads this`courses, courses.Values`id
    {
      forall k :: k in courses ==> courses[k].id == Some(k)
    }

    /** Every row of `exams` is stored under its own id. */
    ghost predicate ExamsKeyed()
      reads this`exams, exams.Values`id
    {
      forall k :: k in exams ==> exams[k].id == Some(k)
    }

    /** Every row of `registrations` is stored under its own id. */
    ghost predicate RegistrationsKeyed()
      reads this`registrations, registrations.Values`id
    {
      forall k :: k in registrations ==> registrations[k].id == Some(k)
    }

    /** Every row of `assignments` is stored under its own id. */
    ghost predicate AssignmentsKeyed()
      reads this`assignments, assignments.Values`id
    {
      forall k :: k in assignments ==> assignments[k].id == Some(k)
    }

    /** Every row of `enrollments` is stored under its own id. */
    ghost predicate EnrollmentsKeyed()
      reads this`enrollments, enrollments.Values`id
    {
      forall k :: k in enrollments ==> enrollments[k].id == Some(k)
    }

    /** `uk_app_users_email` (NULLs never collide in a unique constraint). */
    ghost predicate UniqueEmails()
      reads this`users, users.Values`email
    {
      forall j, k | j in users && k in users && users[j].email.Some? && users[j].email == users[k].email :: j == k
    }

    /** `uk_student_index` */
    ghost predicate UniqueStudentIndexes()
      reads this`students, students.Values`studentIndex
    {
      forall j, k | j in students && k in students && students[j].studentIndex.Some?
        && students[j].studentIndex == students[k].studentIndex :: j == k
    }

    /** `uk_student_user`: at most one student profile per user. */
    ghost predicate OneProfilePerUser()
      reads this`students, students.Values`user
    {
      forall j, k | j in students && k in students && students[j].user != null
        && students[j].user == students[k].user :: j == k
    }

    /** `uk_course_code_semester_year` */
    ghost predicate UniqueCourseKeys()
      reads this`courses, courses.Values`courseCode, courses.Values`semester, courses.Values`academicYear
    {
      forall j, k | j in courses && k in courses && courses[j].courseCode.Some?
        && courses[j].semester.Some? && courses[j].academicYear.Some?
        && courses[j].courseCode == courses[k].courseCode && courses[j].semester == courses[k].semester
        && courses[j].academicYear == courses[k].academicYear :: j == k
    }

    /** `uk_exam_student_registration`: at most one registration per (exam, student). */
    ghost predicate UniqueRegistrations()
      reads this`registrations, registrations.Values`exam, registrations.Values`student
    {
      forall j, k | j in registrations && k in registrations && registrations[j].exam != null
        && registrations[j].student != null && registrations[j].exam == registrations[k].exam
        && registrations[j].student == registrations[k].student :: j == k
    }

    /** `uk_course_user_staffrole`: at most one assignment per (course, user, staff role). */
    ghost predicate UniqueAssignments()
      reads this`assignments, assignments.Values`course, assignments.Values`user,
        assignments.Values`staffRole
    {
      forall j, k | j in assignments && k in assignments && assignments[j].course != null
        && assignments[j].user != null && assignments[j].staffRole.Some?
        && assignments[j].course == assignments[k].course && assignments[j].user == assignments[k].user
        && assignments[j].staffRole == assignments[k].staffRole :: j == k
    }

    /** `uk_course_student`: at most one enrollment per (course, student). */
    ghost predicate UniqueEnrollments()
      reads this`enrollments, enrollments.Values`course, enrollments.Values`student
    {
      forall j, k | j in enrollments && k in enrollments && enrollments[j].course != null
        && enrollments[j].student != null && enrollments[j].course == enrollments[k].course
        && enrollments[j].student == enrollments[k].student :: j == k
    }

    /**
     * `fk_student_user`: every student profile points at a stored user (the
     * column is NOT NULL and references `app_users`).
     */
    ghost predicate StudentsLinked()
      reads this`students, this`users, students.Values`user
    {
      forall k :: k in students ==> exists j :: j in users && users[j] == students[k].user
    }

    /** All unique constraints of the schema hold. */
    ghost predicate Unique()
      reads this`users, this`students, this`courses, this`registrations, this`assignments,
        this`enrollments
      reads users.Values`email, students.Values`studentIndex, students.Values`user
      reads courses.Values`courseCode, courses.Values`semester, courses.Values`academicYear
      reads registrations.Values`exam, registrations.Values`student
      reads assignments.Values`course, assignments.Values`user, assignments.Values`staffRole
      reads enrollments.Values`course, enrollments.Values`student
    {
      UniqueEmails() && UniqueStudentIndexes() && OneProfilePerUser() && UniqueCourseKeys()
      && UniqueRegistrations() && UniqueAssignments() && UniqueEnrollments()
    }

    constructor ()
      ensures users == map[] && students == map[] && courses == map[] && exams == map[]
      ensures registrations == map[] && assignments == map[] && enrollments == map[] && resetTokens == map[]
      ensures Valid() && Unique()
      ensures UsersKeyed() && StudentsKeyed() && CoursesKeyed() && ExamsKeyed()
      ensures RegistrationsKeyed() && AssignmentsKeyed() && EnrollmentsKeyed()
    {
      users, students, courses, exams := map[], map[], map[], map[];
      registrations, assignments, enrollments, resetTokens := map[], map[], map[], map[];
      nextUserId, nextStudentId, nextCourseId, nextExamId := 1, 1, 1, 1;
      nextRegistrationId, nextAssignmentId, nextEnrollmentId := 1, 1, 1;
    }


    /** Some stored user has the e-mail address `email`. */
    predicate EmailTaken(email: string)
      reads this`users, users.Values`email
    {
      exists j :: j in users && users[j].email == Some(email)
    }

    /** A user other than the one under `k` has the e-mail address `email`. */
    predicate EmailTakenByOther(email: string, k: int)
      reads this`users, users.Values`email
    {
      exists j :: j in users && j != k && users[j].email == Some(email)
    }

    /**
     * A course other than the one under `k` has this code, semester and year;
     * a NULL in any of the three never collides.
     */
    predicate CourseKeyTakenByOther(code: Option<string>, semester: Option<int>, year: Option<int>, k: int)
      reads this`courses, courses.Values`courseCode, courses.Values`semester, courses.Values`academicYear
    {
      code.Some? && semester.Some? && year.Some?
      && exists j :: j in courses && j != k && courses[j].courseCode == code
                     && courses[j].semester == semester && courses[j].academicYear == year
    }

    /** A profile other than the one under `k` has the index `index`; NULL never collides. */
    predicate StudentIndexTakenByOther(index: Option<string>, k: int)
      reads this`students, students.Values`studentIndex
    {
      index.Some? && exists j :: j in students && j != k && students[j].studentIndex == index
    }

    /** A profile other than the one under `k` belongs to user `u`; NULL never collides. */
    predicate HasOtherProfile(u: User?, k: int)
      reads this`students, students.Values`user
    {
      u != null && exists j :: j in students && j != k && students[j].user == u
    }

    /** `fk_exam_course`: some exam refers to course `c`. */
    predicate HasExams(c: Course)
      reads this`exams, exams.Values`course
    {
      exists j :: j in exams && exams[j].course == c
    }

    /** The stored profiles of user `u` other than `kept`. */
    function ProfilesOf(u: User, kept: Student?): (r: set<Student>)
      reads this`students, students.Values`user
      ensures r <= students.Values
      ensures forall j :: j in students ==> (students[j] in r <==> students[j].user == u && students[j] != kept)
    {
      set j | j in ProfileIds(students, u, kept) :: students[j]
    }

    /** `fk_enrollment_student`: some enrollment refers to one of `profiles`. */
    predicate Enrolled(profiles: set<Student>)
      reads this`enrollments, enrollments.Values`student
    {
      exists j :: j in enrollments && enrollments[j].student in profiles
    }

    /** `fk_prt_user`: some password-reset token refers to user `u`. */
    predicate HasResetTokens(u: User)
      reads this`resetTokens, resetTokens.Values`user
    {
      exists j :: j in resetTokens && resetTokens[j].user == u
    }

    /**
     * `save` of a new user: the identity column assigns the next id. A row
     * with a null or over-long name or e-mail, or a null role, breaks the
     * NOT NULL and length constraints of `app_users`, which the database
     * checks before the unique index; an e-mail address already stored is
     * rejected by `uk_app_users_email`. In both cases nothing is inserted.
     */
    method PersistUser(u: User) returns (violated: Option<string>)
      requires Valid() && u.id.None?
      modifies this`users, this`nextUserId, u`id
      ensures violated.Some? <==> !u.FitsColumns() || old(EmailTaken(u.email.value))
      ensures !u.FitsColumns() ==> violated == u.ColumnViolation()
      ensures u.FitsColumns() && violated.Some? ==> violated.value == "uk_app_users_email"
      ensures violated.Some? ==>
                u.id.None? && users == old(users) && nextUserId == old(nextUserId)
      ensures violated.None? ==>
                u.id == Some(old(nextUserId)) && users == old(users)[old(nextUserId) := u]
                && nextUserId == old(nextUserId) + 1
      ensures Valid()
      ensures old(UsersKeyed()) ==> UsersKeyed()
      ensures old(Unique()) ==> Unique()
    {
      violated := u.ColumnViolation();
      if violated.Some? {
        return;
      }
      if EmailTaken(u.email.value) {
        return Some("uk_app_users_email");
      }
      u.id := Some(nextUserId);
      users := users[nextUserId := u];
      nextUserId := nextUserId + 1;
      violated := None;
    }

    /**
     * `save` of an exam: a new one is inserted under the next id, a saved one
     * replaces its row. A null session, date, capacity, time or course, or an
     * over-long session or laboratory name, breaks the NOT NULL and length
     * constraints of `exams` and `exam_reserved_labs`; then nothing is written
     * and a new exam gets no id.
     */
    method SaveExam(e: Exam) returns (violated: Option<string>)
      requires Valid()
      modifies this`exams, this`nextExamId, e`id
      ensures violated == old(e.ColumnViolation())
      ensures violated.Some? ==> e.id == old(e.id) && exams == old(exams) && nextExamId == old(nextExamId)
      ensures violated.None? && old(e.id).None? ==>
                e.id == Some(old(nextExamId)) && exams == old(exams)[old(nextExamId) := e]
                && nextExamId == old(nextExamId) + 1
      ensures violated.None? && old(e.id).Some? ==>
                e.id == old(e.id) && exams == old(exams)[e.id.value := e] && nextExamId == old(nextExamId)
      ensures violated.None? ==> e.id.Some? && e.id.value in exams && exams[e.id.value] == e
      ensures old(e.id).Some? && old(e.id.value) < old(nextExamId) ==> Valid()
      ensures old(e.id).None? ==> Valid()
      ensures old(ExamsKeyed()) ==> ExamsKeyed()
      ensures old(Unique()) ==> Unique()
    {
      violated := e.ColumnViolation();
      if violated.Some? {
        return;
      }
      if e.id.None? {
        e.id := Some(nextExamId);
        exams := exams[nextExamId := e];
        nextExamId := nextExamId + 1;
      } else {
        exams := exams[e.id.value := e];
      }
    }

    /** A stored assignment has the course, user and role of `a`. */
    ghost predicate AssignmentTaken(a: CourseStaffAssignment)
      reads this`assignments, assignments.Values, a
    {
      exists j :: j in assignments && assignments[j].course == a.course && assignments[j].user == a.user
                  && assignments[j].staffRole == a.staffRole
    }

    /**
     * `save` of a new staff assignment. A row with the same course, user and
     * role would be rejected by `uk_course_user_staffrole`; this model inserts
     * it, and keeps the unique constraints only when there is none.
     */
    method PersistAssignment(a: CourseStaffAssignment)
      requires Valid() && a.id.None?
      modifies this`assignments, this`nextAssignmentId, a`id
      ensures a.id == Some(old(nextAssignmentId)) && assignments == old(assignments)[old(nextAssignmentId) := a]
      ensures nextAssignmentId == old(nextAssignmentId) + 1 && Valid()
      ensures old(AssignmentsKeyed()) ==> AssignmentsKeyed()
      ensures old(Unique()) && !old(AssignmentTaken(a)) ==> Unique()
    {
      a.id := Some(nextAssignmentId);
      assignments := assignments[nextAssignmentId := a];
      nextAssignmentId := nextAssignmentId + 1;
    }

    // -------------------------------------------------------------------
    // Removal of rows, one table at a time: every constraint that held
    // still holds.

    method RemoveUsers(ids: set<int>)
      requires Valid()
      modifies this`users
      ensures users == old(users) - ids && Valid()
      ensures old(UsersKeyed()) ==> UsersKeyed()
      ensures old(Unique()) ==> Unique()
    {
      users := users - ids;
    }

    method RemoveStudents(ids: set<int>)
      requires Valid()
      modifies this`students
      ensures students == old(students) - ids && Valid()
      ensures old(StudentsKeyed()) ==> StudentsKeyed()
      ensures old(Unique()) ==> Unique()
    {
      students := students - ids;
    }

    method RemoveCourses(ids: set<int>)
      requires Valid()
      modifies this`courses
      ensures courses == old(courses) - ids && Valid()
      ensures old(CoursesKeyed()) ==> CoursesKeyed()
      ensures old(Unique()) ==> Unique()
    {
      courses := courses - ids;
    }

    method RemoveExams(ids: set<int>)
      requires Valid()
      modifies this`exams
      ensures exams == old(exams) - ids && Valid()
      ensures old(ExamsKeyed()) ==> ExamsKeyed()
      ensures old(Unique()) ==> Unique()
    {
      exams := exams - ids;
    }

    method RemoveRegistrations(ids: set<int>)
      requires Valid()
      modifies this`registrations
      ensures registrations == old(registrations) - ids && Valid()
      ensures old(RegistrationsKeyed()) ==> RegistrationsKeyed()
      ensures old(Unique()) ==> Unique()
    {
      registrations := registrations - ids;
    }

    method RemoveAssignments(ids: set<int>)
      requires Valid()
      modifies this`assignments
      ensures assignments == old(assignments) - ids && Valid()
      ensures old(AssignmentsKeyed()) ==> AssignmentsKeyed()
      ensures old(Unique()) ==> Unique()
    {
      assignments := assignments - ids;
    }

    method RemoveEnrollments(ids: set<int>)
      requires Valid()
      modifies this`enrollments
      ensures enrollments == old(enrollments) - ids && Valid()
      ensures old(EnrollmentsKeyed()) ==> EnrollmentsKeyed()
      ensures old(Unique()) ==> Unique()
    {
      enrollments := enrollments - ids;
    }

    // -------------------------------------------------------------------
    // Repository deletes

    /** `delete` of a staff assignment: removes its row; an unsaved one is ignored. */
    method DeleteAssignment(a: CourseStaffAssignment)
      requires Valid()
      modifies this`assignments
      ensures a.id.Some? ==> assignments == old(assignments) - {a.id.value}
      ensures a.id.None? ==> assignments == old(assignments)
      ensures Valid()
      ensures old(AssignmentsKeyed()) ==> AssignmentsKeyed()
      ensures old(Unique()) ==> Unique()
    {
      if a.id.Some? {
        RemoveAssignments({a.id.value});
      }
    }

    /**
     * `delete` of a stored exam: removes its row and, by cascade, its
     * registrations. No other table refers to exams.
     */
    method DeleteExam(k: int)
      requires Valid() && k in exams
      modifies this`exams, this`registrations
      ensures exams == old(exams) - {k}
      ensures registrations == old(registrations) - old(RegistrationsOfExam(registrations, exams[k]))
      ensures forall j :: j in registrations ==> registrations[j].exam != old(exams[k])
      ensures Valid()
      ensures old(ExamsKeyed()) ==> ExamsKeyed()
      ensures old(RegistrationsKeyed()) ==> RegistrationsKeyed()
      ensures old(Unique()) ==> Unique()
    {
      var e := exams[k];
      RemoveRegistrations(RegistrationsOfExam(registrations, e));
      RemoveExams({k});
    }

    /**
     * `delete` of a stored course: removes its row and, by cascade, its
     * enrollments and staff assignments. The course does not own its exams,
     * so an exam that refers to it makes `fk_exam_course` reject the delete,
     * and then nothing is removed.
     */
    method DeleteCourse(k: int) returns (violated: Option<string>)
      requires Valid() && k in courses
      modifies this`courses, this`enrollments, this`assignments
      ensures violated.Some? <==> old(HasExams(courses[k]))
      ensures violated.Some? ==>
                violated.value == "fk_exam_course" && courses == old(courses)
                && enrollments == old(enrollments) && assignments == old(assignments)
      ensures violated.None? ==>
                && courses == old(courses) - {k}
                && enrollments == old(enrollments) - old(EnrollmentsOfCourse(enrollments, courses[k]))
                && assignments == old(assignments) - old(AssignmentsOfCourse(assignments, courses[k]))
      ensures violated.None? ==>
                && (forall j :: j in exams ==> exams[j].course != old(courses[k]))
                && (forall j :: j in enrollments ==> enrollments[j].course != old(courses[k]))
                && (forall j :: j in assignments ==> assignments[j].course != old(courses[k]))
      ensures Valid()
      ensures old(CoursesKeyed()) ==> CoursesKeyed()
      ensures old(EnrollmentsKeyed()) ==> EnrollmentsKeyed()
      ensures old(AssignmentsKeyed()) ==> AssignmentsKeyed()
      ensures old(Unique()) ==> Unique()
    {
      var c := courses[k];
      if HasExams(c) {
        return Some("fk_exam_course");
      }
      RemoveEnrollments(EnrollmentsOfCourse(enrollments, c));
      RemoveAssignments(AssignmentsOfCourse(assignments, c));
      RemoveCourses({k});
      violated := None;
    }

    /**
     * `delete` of a stored student: removes its row and, by cascade, its exam
     * registrations. The profile does not own its enrollments, so an
     * enrollment that refers to it makes `fk_enrollment_student` reject the
     * delete, and then nothing is removed.
     */
    method DeleteStudent(k: int) returns (violated: Option<string>)
      requires Valid() && k in students
      modifies this`students, this`registrations
      ensures violated.Some? <==> old(Enrolled({students[k]}))
      ensures violated.Some? ==>
                violated.value == "fk_enrollment_student"
                && students == old(students) && registrations == old(registrations)
      ensures violated.None? ==>
                && students == old(students) - {k}
                && registrations == old(registrations) - old(RegistrationsOfProfiles(registrations, {students[k]}))
      ensures violated.None? ==>
                && (forall j :: j in registrations ==> registrations[j].student != old(students[k]))
                && (forall j :: j in enrollments ==> enrollments[j].student != old(students[k]))
      ensures Valid()
      ensures old(StudentsKeyed()) ==> StudentsKeyed()
      ensures old(RegistrationsKeyed()) ==> RegistrationsKeyed()
      ensures old(Unique()) ==> Unique()
    {
      var s := students[k];
      if Enrolled({s}) {
        return Some("fk_enrollment_student");
      }
      RemoveRegistrations(RegistrationsOfProfiles(registrations, {s}));
      RemoveStudents({k});
      violated := None;
    }

    /**
     * `delete` of a student entity that was read under id `k`: the repository
     * looks the row up first, so a row already removed is ignored.
     */
    method DeleteStudentIfStored(k: int) returns (violated: Option<string>)
      requires Valid()
      modifies this`students, this`registrations
      ensures k !in old(students) ==>
                violated.None? && students == old(students) && registrations == old(registrations)
      ensures k in old(students) ==> (violated.Some? <==> old(Enrolled({students[k]})))
      ensures k in old(students) && violated.Some? ==>
                violated.value == "fk_enrollment_student"
                && students == old(students) && registrations == old(registrations)
      ensures k in old(students) && violated.None? ==>
                students == old(students) - {k}
                && registrations == old(registrations) - old(RegistrationsOfProfiles(registrations, {students[k]}))
      ensures Valid()
      ensures old(StudentsKeyed()) ==> StudentsKeyed()
      ensures old(RegistrationsKeyed()) ==> RegistrationsKeyed()
      ensures old(Unique()) ==> Unique()
    {
      violated := None;
      if k in students {
        violated := DeleteStudent(k);
      }
    }

    /**
     * Orphan removal of the profiles of user `u` other than `kept`, with
     * their registrations. An enrollment of such a profile makes
     * `fk_enrollment_student` reject it, and then nothing is removed.
     */
    method RemoveOrphanProfiles(u: User, kept: Student?) returns (violated: Option<string>)
      requires Valid()
      modifies this`students, this`registrations
      ensures violated.Some? <==> old(Enrolled(ProfilesOf(u, kept)))
      ensures violated.Some? ==>
                violated.value == "fk_enrollment_student"
                && students == old(students) && registrations == old(registrations)
      ensures violated.None? ==>
                students == old(students) - old(ProfileIds(students, u, kept))
                && registrations == old(registrations) - old(RegistrationsOfProfiles(registrations, ProfilesOf(u, kept)))
      ensures violated.None? ==> forall j :: j in students && students[j].user == u ==> students[j] == kept
      ensures Valid()
      ensures old(StudentsKeyed()) ==> StudentsKeyed()
      ensures old(RegistrationsKeyed()) ==> RegistrationsKeyed()
      ensures old(Unique()) ==> Unique()
    {
      var orphans := ProfilesOf(u, kept);
      if Enrolled(orphans) {
        return Some("fk_enrollment_student");
      }
      RemoveRegistrations(RegistrationsOfProfiles(registrations, orphans));
      RemoveStudents(ProfileIds(students, u, kept));
      violated := None;
    }

    /**
     * The constraint that rejects deleting user `u`: its profile is deleted
     * first by cascade, so an enrollment of the profile is reported before a
     * password-reset token of the user.
     */
    function UserDeleteViolation(u: User): (r: Option<string>)
      reads this`students, students.Values`user, this`enrollments, enrollments.Values`student
      reads this`resetTokens, resetTokens.Values`user
      ensures r.None? <==> !Enrolled(ProfilesOf(u, null)) && !HasResetTokens(u)
      ensures r.Some? ==> r.value == "fk_enrollment_student" || r.value == "fk_prt_user"
      ensures Enrolled(ProfilesOf(u, null)) ==> r == Some("fk_enrollment_student")
    {
      if Enrolled(ProfilesOf(u, null)) then Some("fk_enrollment_student")
      else if HasResetTokens(u) then Some("fk_prt_user")
      else None
    }

    /**
     * `delete` of a stored user: removes its row and, by cascade, its student
     * profile with that profile's registrations, and its staff assignments.
     * Neither the profile's enrollments nor the user's password-reset tokens
     * are owned, so either makes a foreign key reject the delete, and then
     * nothing is removed.
     */
    method DeleteUser(k: int) returns (violated: Option<string>)
      requires Valid() && k in users
      modifies this`users, this`students, this`registrations, this`assignments
      ensures violated == old(UserDeleteViolation(users[k]))
      ensures violated.Some? ==>
                users == old(users) && students == old(students)
                && registrations == old(registrations) && assignments == old(assignments)
      ensures violated.None? ==> UserRemoved(k)
      ensures Valid()
      ensures old(UsersKeyed()) ==> UsersKeyed()
      ensures old(StudentsKeyed()) ==> StudentsKeyed()
      ensures old(RegistrationsKeyed()) ==> RegistrationsKeyed()
      ensures old(AssignmentsKeyed()) ==> AssignmentsKeyed()
      ensures old(Unique()) ==> Unique()
    {
      violated := UserDeleteViolation(users[k]);
      if violated.None? {
        CascadeUser(k);
      }
    }

    /** The removals of `DeleteUser` once no foreign key stands in the way. */
    method CascadeUser(k: int)
      requires Valid() && k in users
      modifies this`users, this`students, this`registrations, this`assignments
      ensures UserRemoved(k)
      ensures Valid()
      ensures old(UsersKeyed()) ==> UsersKeyed()
      ensures old(StudentsKeyed()) ==> StudentsKeyed()
      ensures old(RegistrationsKeyed()) ==> RegistrationsKeyed()
      ensures old(AssignmentsKeyed()) ==> AssignmentsKeyed()
      ensures old(Unique()) ==> Unique()
    {
      var u := users[k];
      var profiles := ProfilesOf(u, null);
      RemoveRegistrations(RegistrationsOfProfiles(registrations, profiles));
      RemoveStudents(ProfileIds(students, u, null));
      RemoveAssignments(AssignmentsOfUser(assignments, u));
      RemoveUsers({k});
    }

    /**
     * The tables after the user stored under `k` was deleted: its row, its
     * profiles, their registrations and its staff assignments are gone, and
     * every other row stays.
     */
    twostate predicate UserRemoved(k: int)
      reads this
    {
      && k in old(users)
      && var u := old(users[k]);
      && users == old(users) - {k}
      && students == old(students) - old(ProfileIds(students, u, null))
      && registrations == old(registrations) - old(RegistrationsOfProfiles(registrations, ProfilesOf(u, null)))
      && assignments == old(assignments) - old(AssignmentsOfUser(assignments, u))
    }
  }

  /** The ids of the registrations of exam `e`. */
  function RegistrationsOfExam(m: map<int, StudentExamRegistration>, e: Exam): (r: set<int>)
    reads m.Values`exam
    ensures forall j :: j in r <==> j in m && m[j].exam == e
  {
    set j | j in m && m[j].exam == e
  }

  /** The ids of the registrations of one of `profiles`. */
  function RegistrationsOfProfiles(m: map<int, StudentExamRegistration>, profiles: set<Student>): (r: set<int>)
    reads m.Values`student
    ensures forall j :: j in r <==> j in m && m[j].student in profiles
  {
    set j | j in m && m[j].student in profiles
  }

  /** The ids of the enrollments in course `c`. */
  function EnrollmentsOfCourse(m: map<int, CourseEnrollment>, c: Course): (r: set<int>)
    reads m.Values`course
    ensures forall j :: j in r <==> j in m && m[j].course == c
  {
    set j | j in m && m[j].course == c
  }

  /** The ids of the staff assignments of course `c`. */
  function AssignmentsOfCourse(m: map<int, CourseStaffAssignment>, c: Course): (r: set<int>)
    reads m.Values`course
    ensures forall j :: j in r <==> j in m && m[j].course == c
  {
    set j | j in m && m[j].course == c
  }

  /** The ids of the staff assignments of user `u`. */
  function AssignmentsOfUser(m: map<int, CourseStaffAssignment>, u: User): (r: set<int>)
    reads m.Values`user
    ensures forall j :: j in r <==> j in m && m[j].user == u
  {
    set j | j in m && m[j].user == u
  }

  /** The ids of the student profiles of user `u`, other than `kept`. */
  function ProfileIds(m: map<int, Student>, u: User, kept: Student?): (r: set<int>)
    reads m.Values`user
    ensures forall j :: j in r <==> j in m && m[j].user == u && m[j] != kept
  {
    set j | j in m && m[j].user == u && m[j] != kept
  }
}
