/**
 * The persistent entities of the assessment system. Each is a mutable object
 * whose fields are assigned by constructors, setters and services. A Java
 * reference that may be null is an `Option` (or a nullable class type), so the
 * NOT NULL and length constraints of each table are stated by `FitsColumns`
 * rather than by the types. Ids are unset until the row is saved.
 */
module Entities {
  import opened Wrappers

  datatype UserRole = ADMINISTRATOR | STAFF | STUDENT | USER
  datatype StaffRole = PROFESSOR | ASSISTANT
  datatype ExamStatus = REGISTERED | ATTENDED | ABSENT

  /** `UserRole.name()` */
  function UserRoleName(r: UserRole): string {
    match r
    case ADMINISTRATOR => "ADMINISTRATOR"
    case STAFF => "STAFF"
    case STUDENT => "STUDENT"
    case USER => "USER"
  }

  /** `StaffRole.name()` */
  function StaffRoleName(r: StaffRole): string {
    match r
    case PROFESSOR => "PROFESSOR"
    case ASSISTANT => "ASSISTANT"
  }

  /** `StaffRole.valueOf(s)`, which rejects any other name. */
  function StaffRoleValueOf(s: string): (r: Option<StaffRole>)
    ensures r.Some? <==> s == "PROFESSOR" || s == "ASSISTANT"
    ensures r.Some? ==> StaffRoleName(r.value) == s
  {
    if s == "PROFESSOR" then Some(PROFESSOR)
    else if s == "ASSISTANT" then Some(ASSISTANT)
    else None
  }

  /** A `LocalDate` as its day number, a `LocalTime` as its second of the day. */
  type Date = int
  type Time = int

  /** Maximum lengths of the varchar columns. */
  const NAME_LENGTH := 80
  const EMAIL_LENGTH := 150
  const STUDENT_INDEX_LENGTH := 30
  const MAJOR_LENGTH := 120
  const COURSE_CODE_LENGTH := 30
  const COURSE_NAME_LENGTH := 200
  const SESSION_LENGTH := 100
  const LABORATORY_LENGTH := 100

  predicate FitsColumn(s: Option<string>, length: int) {
    s.Some? && |s.value| <= length
  }

  class User {
    var id: Option<int>
    var firstName: Option<string>
    var lastName: Option<string>
    var email: Option<string>
    var password: Option<string>
    var userRole: Option<UserRole>
    /** The owned student profile (cascade and orphan removal). */
    var student: Student?
    /** The owned staff assignments (cascade and orphan removal). */
    var courseStaffAssignments: seq<CourseStaffAssignment>

    /** The row satisfies the NOT NULL and length constraints of `app_users`. */
    predicate FitsColumns()
      reads this
    {
      FitsColumn(firstName, NAME_LENGTH) && FitsColumn(lastName, NAME_LENGTH)
      && FitsColumn(email, EMAIL_LENGTH) && userRole.Some?
    }

    /**
     * The first column of `app_users`, in declaration order, whose NOT NULL or
     * length constraint the row breaks. Every role name fits `user_role`'s 20
     * characters, so only a missing role breaks it.
     */
    function ColumnViolation(): (r: Option<string>)
      reads this
      ensures r.None? <==> FitsColumns()
      ensures r.Some? ==> r.value in {"first_name", "last_name", "email", "user_role"}
    {
      if !FitsColumn(firstName, NAME_LENGTH) then Some("first_name")
      else if !FitsColumn(lastName, NAME_LENGTH) then Some("last_name")
      else if !FitsColumn(email, EMAIL_LENGTH) then Some("email")
      else if userRole.None? then Some("user_role")
      else None
    }

    constructor (firstName: Option<string>, lastName: Option<string>, email: Option<string>,
                 password: Option<string>, userRole: Option<UserRole>)
      ensures this.firstName == firstName && this.lastName == lastName && this.email == email
      ensures this.password == password && this.userRole == userRole
      ensures id.None? && student == null && courseStaffAssignments == []
    {
      this.firstName := firstName;
      this.lastName := lastName;
      this.email := email;
      this.password := password;
      this.userRole := userRole;
      id := None;
      student := null;
      courseStaffAssignments := [];
    }

    /** Links the profile both ways; a null profile only clears this side. */
    method SetStudent(s: Student?)
      modifies this`student, (if s == null then {} else {s})`user
      ensures student == s
      ensures s != null ==> s.user == this
    {
      student := s;
      if s != null {
        s.user := this;
      }
    }
  }

  class Student {
    var id: Option<int>
    var studentIndex: Option<string>
    var major: Option<string>
    var user: User?
    /** The owned exam registrations (cascade and orphan removal). */
    var examRegistrations: seq<StudentExamRegistration>

    /** The row satisfies the NOT NULL and length constraints of `students`. */
    predicate FitsColumns()
      reads this
    {
      FitsColumn(studentIndex, STUDENT_INDEX_LENGTH) && FitsColumn(major, MAJOR_LENGTH) && user != null
    }

    /**
     * The first column of `students`, in declaration order, whose NOT NULL or
     * length constraint the row breaks.
     */
    function ColumnViolation(): (r: Option<string>)
      reads this
      ensures r.None? <==> FitsColumns()
      ensures r.Some? ==> r.value in {"student_index", "major", "user_id"}
    {
      if !FitsColumn(studentIndex, STUDENT_INDEX_LENGTH) then Some("student_index")
      else if !FitsColumn(major, MAJOR_LENGTH) then Some("major")
      else if user == null then Some("user_id")
      else None
    }

    constructor (studentIndex: Option<string>, major: Option<string>, user: User?)
      ensures this.studentIndex == studentIndex && this.major == major && this.user == user
      ensures id.None? && examRegistrations == []
    {
      this.studentIndex := studentIndex;
      this.major := major;
      this.user := user;
      id := None;
      examRegistrations := [];
    }
  }

  class Course {
    var id: Option<int>
    var courseCode: Option<string>
    var courseName: Option<string>
    var semester: Option<int>
    var academicYear: Option<int>
    /** Owned with cascade and orphan removal. */
    var courseEnrollments: seq<CourseEnrollment>
    /** Owned with cascade and orphan removal. */
    var courseStaffAssignments: seq<CourseStaffAssignment>

    /** The row satisfies the NOT NULL and length constraints of `courses`. */
    predicate FitsColumns()
      reads this
    {
      FitsColumn(courseCode, COURSE_CODE_LENGTH) && FitsColumn(courseName, COURSE_NAME_LENGTH)
      && semester.Some? && academicYear.Some?
    }

    /**
     * The first column of `courses`, in declaration order, whose NOT NULL or
     * length constraint the row breaks.
     */
    function ColumnViolation(): (r: Option<string>)
      reads this
      ensures r.None? <==> FitsColumns()
      ensures r.Some? ==> r.value in {"course_code", "course_name", "semester", "academic_year"}
    {
      if !FitsColumn(courseCode, COURSE_CODE_LENGTH) then Some("course_code")
      else if !FitsColumn(courseName, COURSE_NAME_LENGTH) then Some("course_name")
      else if semester.None? then Some("semester")
      else if academicYear.None? then Some("academic_year")
      else None
    }

    constructor (courseCode: Option<string>, courseName: Option<string>, semester: Option<int>,
                 academicYear: Option<int>)
      ensures this.courseCode == courseCode && this.courseName == courseName
      ensures this.semester == semester && this.academicYear == academicYear
      ensures id.None? && courseEnrollments == [] && courseStaffAssignments == []
    {
      this.courseCode := courseCode;
      this.courseName := courseName;
      this.semester := semester;
      this.academicYear := academicYear;
      id := None;
      courseEnrollments := [];
      courseStaffAssignments := [];
    }
  }

  class Exam {
    var id: Option<int>
    var session: Option<string>
    var dateOfExam: Option<Date>
    var capacityOfStudents: Option<int>
    /** The `exam_reserved_labs` element collection. */
    var reservedLaboratories: seq<string>
    var startTime: Option<Time>
    var endTime: Option<Time>
    var course: Course?
    /** Owned with cascade and orphan removal. */
    var studentExamRegistrations: seq<StudentExamRegistration>

    /** The row satisfies the NOT NULL and length constraints of `exams` and `exam_reserved_labs`. */
    predicate FitsColumns()
      reads this
    {
      FitsColumn(session, SESSION_LENGTH) && dateOfExam.Some? && capacityOfStudents.Some?
      && startTime.Some? && endTime.Some? && course != null
      && forall i :: 0 <= i < |reservedLaboratories| ==> |reservedLaboratories[i]| <= LABORATORY_LENGTH
    }

    /**
     * The first column of `exams` or `exam_reserved_labs`, in declaration
     * order, whose NOT NULL or length constraint a row with this exam's
     * schedule and the course `c` breaks. An update keeps the stored course
     * and takes the schedule of another exam, so the course is a parameter.
     */
    function RowViolation(c: Course?): (r: Option<string>)
      reads this
      ensures r.None? <==>
                FitsColumn(session, SESSION_LENGTH) && dateOfExam.Some? && capacityOfStudents.Some?
                && startTime.Some? && endTime.Some? && c != null
                && forall i :: 0 <= i < |reservedLaboratories| ==> |reservedLaboratories[i]| <= LABORATORY_LENGTH
      ensures r.Some? ==> r.value in {"session", "date_of_exam", "capacity_of_students", "laboratory",
                                      "start_time", "end_time", "course_id"}
    {
      if !FitsColumn(session, SESSION_LENGTH) then Some("session")
      else if dateOfExam.None? then Some("date_of_exam")
      else if capacityOfStudents.None? then Some("capacity_of_students")
      else if exists i :: 0 <= i < |reservedLaboratories| && |reservedLaboratories[i]| > LABORATORY_LENGTH then
        Some("laboratory")
      else if startTime.None? then Some("start_time")
      else if endTime.None? then Some("end_time")
      else if c == null then Some("course_id")
      else None
    }

    /** The first column the row itself breaks, as `RowViolation` orders them. */
    function ColumnViolation(): (r: Option<string>)
      reads this
      ensures r.None? <==> FitsColumns()
    {
      RowViolation(course)
    }

    /** The six-argument constructor: no laboratories reserved yet. */
    constructor (session: Option<string>, dateOfExam: Option<Date>, capacityOfStudents: Option<int>,
                 startTime: Option<Time>, endTime: Option<Time>, course: Course?)
      ensures this.session == session && this.dateOfExam == dateOfExam
      ensures this.capacityOfStudents == capacityOfStudents
      ensures this.startTime == startTime && this.endTime == endTime && this.course == course
      ensures id.None? && reservedLaboratories == [] && studentExamRegistrations == []
    {
      this.session := session;
      this.dateOfExam := dateOfExam;
      this.capacityOfStudents := capacityOfStudents;
      this.startTime := startTime;
      this.endTime := endTime;
      this.course := course;
      id := None;
      reservedLaboratories := [];
      studentExamRegistrations := [];
    }

    /** The seven-argument constructor: the given laboratories. */
    constructor WithLaboratories(session: Option<string>, dateOfExam: Option<Date>,
                                 capacityOfStudents: Option<int>, startTime: Option<Time>,
                                 endTime: Option<Time>, course: Course?, reservedLaboratories: seq<string>)
      ensures this.session == session && this.dateOfExam == dateOfExam
      ensures this.capacityOfStudents == capacityOfStudents
      ensures this.startTime == startTime && this.endTime == endTime && this.course == course
      ensures this.reservedLaboratories == reservedLaboratories
      ensures id.None? && studentExamRegistrations == []
    {
      this.session := session;
      this.dateOfExam := dateOfExam;
      this.capacityOfStudents := capacityOfStudents;
      this.startTime := startTime;
      this.endTime := endTime;
      this.course := course;
      this.reservedLaboratories := reservedLaboratories;
      id := None;
      studentExamRegistrations := [];
    }
  }

  class StudentExamRegistration {
    var id: Option<int>
    var student: Student?
    var exam: Exam?
    var examStatus: Option<ExamStatus>

    /** The row satisfies the NOT NULL constraints of `student_exam_registrations`. */
    predicate FitsColumns()
      reads this
    {
      student != null && exam != null && examStatus.Some?
    }

    /** A new registration starts as REGISTERED. */
    constructor (student: Student?, exam: Exam?)
      ensures this.student == student && this.exam == exam
      ensures examStatus == Some(REGISTERED) && id.None?
    {
      this.student := student;
      this.exam := exam;
      examStatus := Some(REGISTERED);
      id := None;
    }
  }

  class CourseStaffAssignment {
    var id: Option<int>
    var user: User?
    var course: Course?
    var staffRole: Option<StaffRole>

    /** The row satisfies the NOT NULL constraints of `course_staff_assignments`. */
    predicate FitsColumns()
      reads this
    {
      user != null && course != null && staffRole.Some?
    }

    constructor (user: User?, course: Course?, staffRole: Option<StaffRole>)
      ensures this.user == user && this.course == course && this.staffRole == staffRole
      ensures id.None?
    {
      this.user := user;
      this.course := course;
      this.staffRole := staffRole;
      id := None;
    }
  }

  class CourseEnrollment {
    var id: Option<int>
    var student: Student?
    var course: Course?
  }

  /** A password-reset token; only its reference to the user matters here. */
  class PasswordResetToken {
    var id: Option<int>
    var token: Option<string>
    var user: User?
    /** `expiresAt` as a second count. */
    var expiresAt: Option<int>
    var used: bool
  }
}
