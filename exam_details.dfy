/**
 * The exam details dialog: the header pieces built from the loaded exam
 * (code, laboratories, capacity, registration count), the
 * export file names, what each role sees, and the loading, registration and
 * import actions. The server calls are parameters. The hooks that supply
 * them catch every error and resolve with `undefined` instead, so a failed
 * read looks like an empty answer, and a failed registration or import still
 * runs what follows it.
 */
module ExamDetails {
  import opened Wrappers
  import opened Text
  import opened JsValues
  import EditExamDialog

  const ROLE_ADMIN := "ADMINISTRATOR"
  const ROLE_STAFF := "STAFF"
  const ROLE_STUDENT := "STUDENT"

  /** The course of a loaded exam. */
  datatype ExamCourse = ExamCourse(courseCode: Option<string>, courseName: Option<string>)

  /** The exam as `findById` answers. */
  datatype Details = Details(
    course: Option<ExamCourse>,
    courseCode: Option<string>,
    courseName: Option<string>,
    dateOfExam: Option<string>,
    startTime: Option<string>,
    endTime: Option<string>,
    capacityOfStudents: Option<int>,
    reservedLaboratories: Option<seq<string>>)

  /** A registration as the three student lists hold it. */
  datatype StudentRow = StudentRow(id: int, studentIndex: string, examStatus: string)

  /** A file picked for import. */
  datatype UploadFile = UploadFile(name: string)

  /** The course's code of an exam, if the exam has one. */
  function NestedCode(details: Option<Details>): Option<string> {
    if details.Some? && details.value.course.Some? then details.value.course.value.courseCode else None
  }

  /** `details?.course?.courseCode || details?.courseCode || "exam"`. */
  function Code(details: Option<Details>): (r: string)
    ensures r != ""
    ensures Present(NestedCode(details)) ==> r == NestedCode(details).value
    ensures !Present(NestedCode(details)) && details.Some? && Present(details.value.courseCode) ==>
              r == details.value.courseCode.value
    ensures !Present(NestedCode(details)) && (details.None? || !Present(details.value.courseCode)) ==> r == "exam"
  {
    if Present(NestedCode(details)) then NestedCode(details).value
    else if details.Some? && Present(details.value.courseCode) then details.value.courseCode.value
    else "exam"
  }

  /** The three exports. */
  datatype ExportKind = RegisteredExport | AttendedExport | AbsentExport

  function KindName(k: ExportKind): string {
    match k
    case RegisteredExport => "registered"
    case AttendedExport => "attended"
    case AbsentExport => "absent"
  }

  /** `exam_<code>_<kind>Students.csv`. */
  function ExportFileName(code: string, k: ExportKind): (r: string)
    ensures |r| > 5 + |code| && r[..5] == "exam_" && r[5..5 + |code|] == code && r[5 + |code|] == '_'
    ensures r[6 + |code|..] == KindName(k) + "Students.csv"
  {
    "exam_" + code + "_" + KindName(k) + "Students.csv"
  }

  /** For one exam, the three exports are saved under three different names. */
  lemma ExportNamesDistinct(code: string, k1: ExportKind, k2: ExportKind)
    requires ExportFileName(code, k1) == ExportFileName(code, k2)
    ensures k1 == k2
  {
    var prefix := "exam_" + code + "_";
    var t1 := KindName(k1) + "Students.csv";
    var t2 := KindName(k2) + "Students.csv";
    assert ExportFileName(code, k1) == prefix + t1;
    assert ExportFileName(code, k2) == prefix + t2;
    assert (prefix + t1)[|prefix|..] == t1;
    assert (prefix + t2)[|prefix|..] == t2;
    KindFromSuffix(k1, k2);
  }

  lemma KindFromSuffix(k1: ExportKind, k2: ExportKind)
    requires KindName(k1) + "Students.csv" == KindName(k2) + "Students.csv"
    ensures k1 == k2
  {
    var t1 := KindName(k1) + "Students.csv";
    assert t1[0] == KindName(k1)[0] && t1[1] == KindName(k1)[1];
    assert t1[0] == KindName(k2)[0] && t1[1] == KindName(k2)[1];
  }

  /** `formatStudentLabel`: "<index> (<status>)". */
  function StudentLabel(s: StudentRow): (r: string)
    ensures |r| == |s.studentIndex| + |s.examStatus| + 3
    ensures r[..|s.studentIndex|] == s.studentIndex && r[|r| - 1] == ')'
    ensures r[|s.studentIndex|..|s.studentIndex| + 2] == " (" && r[|s.studentIndex| + 2..|r| - 1] == s.examStatus
  {
    s.studentIndex + " (" + s.examStatus + ")"
  }

  /** The laboratories line: the list joined with ", ", or "No labs reserved". */
  function LabsLabel(labs: Option<seq<string>>): (r: string)
    ensures labs.None? || labs.value == [] ==> r == "No labs reserved"
    ensures labs.Some? && labs.value != [] ==> r == EditExamDialog.LabsText(labs)
  {
    if labs.Some? && |labs.value| > 0 then Join(labs.value, ", ") else "No labs reserved"
  }

  /** The capacity chip: the number, or "-" when the exam has none; 0 is shown as 0. */
  function CapacityLabel(capacity: Option<int>): (r: string)
    ensures capacity.None? ==> r == "Capacity: -"
    ensures capacity.Some? ==> r == "Capacity: " + IntToString(capacity.value)
  {
    "Capacity: " + (if capacity.Some? then IntToString(capacity.value) else "-")
  }

  /** "Registered: n student", with a plural "s" for every count but 1. */
  function RegisteredCaption(n: nat): (r: string)
    ensures |r| > 12 + |IntToString(n)| && r[..12] == "Registered: "
    ensures r[12..12 + |IntToString(n)|] == IntToString(n)
    ensures r[12 + |IntToString(n)|..] == if n == 1 then " student" else " students"
  {
    "Registered: " + IntToString(n) + " student" + (if n == 1 then "" else "s")
  }

  /** Only a count of exactly one reads in the singular. */
  lemma SingularOnlyForOne(n: nat)
    ensures RegisteredCaption(n)[|RegisteredCaption(n)| - 1] == 't' <==> n == 1
  {
  }

  /** Who may register: the button is enabled and the handler proceeds only for a student. */
  function CanRegister(role: Option<string>): (r: bool)
    ensures r ==> role in {Some(ROLE_ADMIN), Some(ROLE_STAFF), Some(ROLE_STUDENT)}
    ensures r ==> role !in {Some(ROLE_ADMIN), Some(ROLE_STAFF)}
    ensures role == Some(ROLE_STUDENT) ==> r
  {
    role == Some(ROLE_STUDENT)
  }

  /** The dialog's body. */
  datatype Body =
    | LoadingDetails
    | NoDataForRole
    | Sections(stats: Option<(nat, nat, nat)>, registered: seq<string>, attended: seq<string>, absent: seq<string>)

  function Labels(rows: seq<StudentRow>): (r: seq<string>)
    ensures |r| == |rows| && forall i :: 0 <= i < |r| ==> r[i] == StudentLabel(rows[i])
  {
    seq(|rows|, i requires 0 <= i < |rows| => StudentLabel(rows[i]))
  }

  /**
   * The body: a loading note until the exam is loaded; then administrators and
   * staff see the counts with the export and import controls, and they and
   * students see the three lists; everyone else sees that there is no more
   * data for their role.
   */
  function Render(details: Option<Details>, role: Option<string>, registered: seq<StudentRow>,
                  attended: seq<StudentRow>, absent: seq<StudentRow>): (r: Body)
    ensures details.None? <==> r == LoadingDetails
    ensures details.Some? && role !in {Some(ROLE_ADMIN), Some(ROLE_STAFF), Some(ROLE_STUDENT)} <==> r == NoDataForRole
    ensures r.Sections? ==> (r.stats.Some? <==> role in {Some(ROLE_ADMIN), Some(ROLE_STAFF)})
    ensures r.Sections? && r.stats.Some? ==> r.stats.value == (|registered|, |attended|, |absent|)
    ensures r.Sections? ==> r.registered == Labels(registered) && r.attended == Labels(attended)
                            && r.absent == Labels(absent)
  {
    if details.None? then LoadingDetails
    else if role !in {Some(ROLE_ADMIN), Some(ROLE_STAFF), Some(ROLE_STUDENT)} then NoDataForRole
    else
      var manages := role in {Some(ROLE_ADMIN), Some(ROLE_STAFF)};
      Sections(if manages then Some((|registered|, |attended|, |absent|)) else None,
               Labels(registered), Labels(attended), Labels(absent))
  }

  /**
   * The four answers of `reloadExamData`; `None` is a missing answer, which
   * is also what a failed request resolves to.
   */
  datatype Reads = Reads(
    found: Option<Details>,
    registered: Option<seq<StudentRow>>,
    attended: Option<seq<StudentRow>>,
    absent: Option<seq<StudentRow>>)

  /** A JavaScript number id is falsy when missing or 0. */
  predicate IdTruthy(id: Option<int>) {
    id.Some? && id.value != 0
  }

  class Dialog {
    var details: Option<Details>
    var registered: seq<StudentRow>
    var attended: seq<StudentRow>
    var absent: seq<StudentRow>
    var uploadFile: Option<UploadFile>
    var role: Option<string>

    constructor()
      ensures details.None? && registered == [] && attended == [] && absent == []
      ensures uploadFile.None? && role.None?
    {
      details, registered, attended, absent := None, [], [], [];
      uploadFile, role := None, None;
    }

    /**
     * The state after `reloadExamData`: nothing changes without an exam id;
     * otherwise a found exam replaces the details (a missing answer keeps the
     * old ones) and each list takes its answer, [] when the answer is missing.
     */
    twostate predicate Reloaded(examId: Option<int>, answers: Reads)
      reads this
    {
      if !IdTruthy(examId) then
        details == old(details) && registered == old(registered)
        && attended == old(attended) && absent == old(absent)
      else
        && details == (if answers.found.Some? then answers.found else old(details))
        && registered == answers.registered.GetOr([])
        && attended == answers.attended.GetOr([])
        && absent == answers.absent.GetOr([])
    }

    /** `reloadExamData`. */
    method Reload(examId: Option<int>, answers: Reads)
      modifies this`details, this`registered, this`attended, this`absent
      ensures Reloaded(examId, answers)
    {
      if !IdTruthy(examId) {
        return;
      }
      if answers.found.Some? {
        details := answers.found;
      }
      registered := answers.registered.GetOr([]);
      attended := answers.attended.GetOr([]);
      absent := answers.absent.GetOr([]);
    }

    /** The role from `me()`: the user's non-empty role, else none; a failed call also gives none. */
    method LoadRole(me: Result<Option<string>>)
      modifies this`role
      ensures me.Success? && Present(me.value) ==> role == me.value
      ensures me.Failure? || !Present(me.value) ==> role.None?
    {
      if me.Success? && Present(me.value) {
        role := me.value;
      } else {
        role := None;
      }
    }

    /** `handleFileChange`: the first picked file, or none. */
    method FileChange(file: Option<UploadFile>)
      modifies this`uploadFile
      ensures uploadFile == file
    {
      uploadFile := file;
    }

    /**
     * `handleRegister`: only a student sends the registration, and then the
     * exam data is reloaded whatever the registration's outcome, since the
     * hook's promise never rejects. Others send nothing.
     */
    method HandleRegister(examId: Option<int>, answers: Reads) returns (sent: bool)
      modifies this`details, this`registered, this`attended, this`absent
      ensures sent <==> CanRegister(role)
      ensures sent ==> Reloaded(examId, answers)
      ensures !sent ==>
                details == old(details) && registered == old(registered)
                && attended == old(attended) && absent == old(absent)
    {
      if !CanRegister(role) {
        return false;
      }
      sent := true;
      Reload(examId, answers);
    }

    /**
     * `handleImportAttended`: nothing without a picked file; otherwise the file
     * is sent, and then, whatever the import's outcome, the file is cleared
     * and the exam data reloaded.
     */
    method HandleImport(examId: Option<int>, answers: Reads) returns (sent: Option<UploadFile>)
      modifies this`uploadFile, this`details, this`registered, this`attended, this`absent
      ensures sent == old(uploadFile)
      ensures sent.None? ==>
                uploadFile == old(uploadFile) && details == old(details) && registered == old(registered)
                && attended == old(attended) && absent == old(absent)
      ensures sent.Some? ==> uploadFile.None? && Reloaded(examId, answers)
    {
      sent := uploadFile;
      if uploadFile.None? {
        return;
      }
      uploadFile := None;
      Reload(examId, answers);
    }
  }
}
