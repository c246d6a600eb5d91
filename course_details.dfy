/**
 * The course details dialog: the loading of the course and its enrolled
 * students, the normalisation of the students answer, the labels of the
 * course's staff and academic year, the export file name, and the import
 * that reloads the students. The server calls are parameters. The hooks
 * that supply them catch every error and resolve with `undefined` instead,
 * so a failed read is an `Undefined` answer, and a failed import still runs
 * what follows it.
 */
module CourseDetails {
  import opened Wrappers
  import opened Text
  import opened JsValues
  import opened CourseForm

  /** The course as `findById` answers. */
  datatype Details = Details(
    courseCode: Option<string>,
    courseName: Option<string>,
    semester: Option<int>,
    academicYear: Option<int>,
    professors: Option<seq<UserRecord>>,
    assistants: Option<seq<UserRecord>>)

  /** An enrolled student as the list holds it. */
  datatype EnrolledStudent = EnrolledStudent(id: int)

  /** A file picked for import. */
  datatype UploadFile = UploadFile(name: string)

  /** `res?.data || res || []`. */
  function StudentsOf(res: Value<EnrolledStudent>): (r: Value<EnrolledStudent>)
    ensures Truthy(Field(res, "data")) ==> r == Field(res, "data")
    ensures !Truthy(Field(res, "data")) && Truthy(res) ==> r == res
    ensures !Truthy(Field(res, "data")) && !Truthy(res) ==> r == List([])
  {
    Or(Or(Field(res, "data"), res), List([]))
  }

  /**
   * A bare list is taken as it is and a `{data: [...]}` wrapper is unwrapped;
   * a wrapper without `data` is kept as the wrapper itself, which is not a list.
   */
  lemma StudentsOfShapes(items: seq<EnrolledStudent>, others: map<string, Value<EnrolledStudent>>)
    requires "data" !in others
    ensures StudentsOf(List(items)) == List(items)
    ensures StudentsOf(Record(others["data" := List(items)])) == List(items)
    ensures !StudentsOf(Record(others)).List?
  {
  }

  /** "<n> students enrolled" counts a list; a non-list answer has no count here. */
  function EnrolledCount(students: Value<EnrolledStudent>): (r: Option<nat>)
    ensures r.Some? <==> students.List?
    ensures r.Some? ==> r.value == |students.items|
  {
    if students.List? then Some(|students.items|) else None
  }

  /** The export file: `course_<code>_students.csv`, with "course" for a missing code. */
  function ExportFileName(details: Option<Details>): (r: string)
    ensures details.Some? && Present(details.value.courseCode) ==>
              r == "course_" + details.value.courseCode.value + "_students.csv"
    ensures details.None? || !Present(details.value.courseCode) ==> r == "course_course_students.csv"
  {
    "course_" + (if details.Some? then OrElse(details.value.courseCode, "course") else "course") + "_students.csv"
  }

  /**
   * The academic year `y/(y+1)`. `None` is a course record without an
   * `academicYear` property, which prints as "undefined/NaN"; a property
   * present with the value null (it would print "null/1") is not represented.
   */
  function YearLabel(year: Option<int>): (r: string)
    ensures year.Some? ==> r == IntToString(year.value) + "/" + IntToString(year.value + 1)
    ensures year.None? ==> r == "undefined/NaN"
  {
    if year.Some? then IntToString(year.value) + "/" + IntToString(year.value + 1) else "undefined/NaN"
  }

  /**
   * The semester chip `Semester ${semester}`; a course record without a
   * `semester` property prints "Semester undefined".
   */
  function SemesterChip(semester: Option<int>): (r: string)
    ensures |r| > 9 && r[..9] == "Semester "
    ensures semester.Some? ==> r[9..] == IntToString(semester.value)
    ensures semester.None? ==> r[9..] == "undefined"
  {
    "Semester " + (if semester.Some? then IntToString(semester.value) else "undefined")
  }

  /** The year label names two consecutive years. */
  lemma YearLabelConsecutive(year: nat)
    ensures var shown := YearLabel(Some(year));
            var first := IntToString(year);
            && shown[..|first|] == first && shown[|first|] == '/'
            && ParseLong(shown[|first| + 1..]) == Some(year + 1)
  {
    var first := IntToString(year);
    var shown := YearLabel(Some(year));
    assert shown == first + "/" + IntToString(year + 1);
    assert shown[|first| + 1..] == IntToString(year + 1);
    ParseIntToString(year + 1);
  }

  /** A staff list: one `formatName` label per member, or the empty-list message. */
  datatype StaffList = Names(names: seq<string>) | NoneAssigned(message: string)

  /** The professors or assistants section. */
  function StaffListOf(staff: Option<seq<UserRecord>>, message: string): (r: StaffList)
    ensures staff.None? || staff.value == [] ==> r == NoneAssigned(message)
    ensures staff.Some? && staff.value != [] ==>
              r.Names? && |r.names| == |staff.value|
              && forall i :: 0 <= i < |r.names| ==> r.names[i] == FullName(staff.value[i])
  {
    if staff.None? || |staff.value| == 0 then NoneAssigned(message)
    else Names(seq(|staff.value|, i requires 0 <= i < |staff.value| => FullName(staff.value[i])))
  }

  /** Every listed staff member has a non-empty label. */
  lemma StaffLabelsNonEmpty(staff: seq<UserRecord>)
    requires staff != []
    ensures var r := StaffListOf(Some(staff), "No professors assigned.");
            r.Names? && forall i :: 0 <= i < |r.names| ==> r.names[i] != ""
  {
  }

  /** What the dialog renders: nothing until the course is loaded. */
  datatype View = View(
    code: Option<string>,
    name: Option<string>,
    semesterChip: string,
    semester: Option<int>,
    yearLabel: string,
    enrolled: Option<nat>,
    professors: StaffList,
    assistants: StaffList)

  function Render(details: Option<Details>, students: Value<EnrolledStudent>): (r: Option<View>)
    ensures details.None? <==> r.None?
    ensures r.Some? ==>
              && r.value.code == details.value.courseCode && r.value.name == details.value.courseName
              && r.value.semesterChip == SemesterChip(details.value.semester)
              && r.value.semester == details.value.semester
              && r.value.yearLabel == YearLabel(details.value.academicYear)
              && r.value.enrolled == EnrolledCount(students)
              && r.value.professors == StaffListOf(details.value.professors, "No professors assigned.")
              && r.value.assistants == StaffListOf(details.value.assistants, "No assistants assigned.")
  {
    if details.None? then None
    else
      var d := details.value;
      Some(View(d.courseCode, d.courseName, SemesterChip(d.semester), d.semester, YearLabel(d.academicYear), EnrolledCount(students),
                StaffListOf(d.professors, "No professors assigned."),
                StaffListOf(d.assistants, "No assistants assigned.")))
  }

  /** A JavaScript number id is falsy when missing or 0. */
  predicate IdTruthy(id: Option<int>) {
    id.Some? && id.value != 0
  }

  class Dialog {
    var details: Option<Details>
    var students: Value<EnrolledStudent>
    var uploadFile: Option<UploadFile>

    constructor()
      ensures details.None? && students == List([]) && uploadFile.None?
    {
      details, students, uploadFile := None, List([]), None;
    }

    /**
     * The loading effect: nothing while closed or without a course id;
     * otherwise a found course replaces the details (a missing answer keeps
     * the old ones) and the students take the normalised answer, which is []
     * for a missing one.
     */
    method Load(open: bool, courseId: Option<int>, found: Option<Details>, enrolled: Value<EnrolledStudent>)
      modifies this`details, this`students
      ensures !open || !IdTruthy(courseId) ==> details == old(details) && students == old(students)
      ensures open && IdTruthy(courseId) ==>
                && details == (if found.Some? then found else old(details))
                && students == StudentsOf(enrolled)
      ensures open && IdTruthy(courseId) && enrolled.Undefined? ==> students == List([])
    {
      if !open || !IdTruthy(courseId) {
        return;
      }
      if found.Some? {
        details := found;
      }
      students := StudentsOf(enrolled);
    }

    /** `handleFileChange`: the first picked file, or none. */
    method FileChange(file: Option<UploadFile>)
      modifies this`uploadFile
      ensures uploadFile == file
    {
      uploadFile := file;
    }

    /**
     * `handleImportCsv`: nothing without a picked file; otherwise the file is
     * sent, and then, whatever the import's outcome, the file is cleared and
     * the students reloaded.
     */
    method HandleImport(reloaded: Value<EnrolledStudent>) returns (sent: Option<UploadFile>)
      modifies this`uploadFile, this`students
      ensures sent == old(uploadFile)
      ensures sent.None? ==> uploadFile == old(uploadFile) && students == old(students)
      ensures sent.Some? ==> uploadFile.None? && students == StudentsOf(reloaded)
    {
      sent := uploadFile;
      if uploadFile.None? {
        return;
      }
      uploadFile := None;
      students := StudentsOf(reloaded);
    }
  }
}
