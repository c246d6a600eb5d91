/**
 * The course edit dialog: the form prefilled from a course, the edits, the
 * staff pickers that recognise a picked user by id, and a submit that hands
 * the request for the course's id to the page and then closes. Submitting
 * with no course throws a TypeError on `course.id` before anything is sent.
 */
module EditCourseDialog {
  import opened Wrappers
  import opened JsValues
  import opened CourseForm

  /** The course the dialog edits. Every property may be missing. */
  datatype CourseRow = CourseRow(
    id: int,
    courseCode: Option<string>,
    courseName: Option<string>,
    semester: Option<int>,
    academicYear: Option<int>,
    professors: Option<seq<UserRecord>>,
    assistants: Option<seq<UserRecord>>)

  /** A number the course has, or "" when it has none. */
  function FieldOf(n: Option<int>): (r: NumberField)
    ensures n.Some? <==> r.FieldNumber?
    ensures n.Some? ==> r.n == n.value
    ensures n.None? ==> r == FieldText("")
  {
    if n.Some? then FieldNumber(n.value) else FieldText("")
  }

  /** The form filled from a course: "" for missing texts and numbers, [] for missing staff. */
  function PrefillOf(course: CourseRow): (r: Form)
    ensures r.courseCode == course.courseCode.GetOr("") && r.courseName == course.courseName.GetOr("")
    ensures r.semester == FieldOf(course.semester) && r.academicYear == FieldOf(course.academicYear)
    ensures r.professors == course.professors.GetOr([]) && r.assistants == course.assistants.GetOr([])
  {
    Form(course.courseCode.GetOr(""), course.courseName.GetOr(""), FieldOf(course.semester),
         FieldOf(course.academicYear), course.professors.GetOr([]), course.assistants.GetOr([]))
  }

  /**
   * Saving a prefilled form unchanged sends the course's own values and staff
   * ids back; a course without a semester or year is sent with 0 for it.
   */
  lemma UntouchedSave(course: CourseRow, toNumber: string -> Option<int>)
    ensures var p := Payload(PrefillOf(course), toNumber);
            && p.courseCode == course.courseCode.GetOr("") && p.courseName == course.courseName.GetOr("")
            && p.semester == Some(course.semester.GetOr(0))
            && p.academicYear == Some(course.academicYear.GetOr(0))
            && p.professorIds == Ids(course.professors.GetOr([]))
            && p.assistantIds == Ids(course.assistants.GetOr([]))
  {
    assert Text.IsBlank(Text.JavaScriptTrim, "");
  }

  /** `isOptionEqualToValue`: an option is shown as picked when a picked user has its id. */
  predicate ShownPicked(option: UserRecord, picked: seq<UserRecord>) {
    exists i :: 0 <= i < |picked| && picked[i].id == option.id
  }

  /**
   * A picked user is recognised among the options by id alone: an option
   * shows as picked exactly when its id is among the picked users' ids, so
   * two records with the same id are picked or not together, whatever their
   * other properties.
   */
  lemma PickedById(option: UserRecord, picked: seq<UserRecord>)
    ensures ShownPicked(option, picked) <==> option.id in Ids(picked)
  {
    var ids := Ids(picked);
    if ShownPicked(option, picked) {
      var i :| 0 <= i < |picked| && picked[i].id == option.id;
      assert ids[i] == option.id;
    }
    if option.id in ids {
      var i :| 0 <= i < |ids| && ids[i] == option.id;
      assert picked[i].id == option.id;
    }
  }

  /** What `handleSubmit` asks of the page, in order. */
  datatype Call = Edit(id: int, payload: CoursePayload) | Close

  class Dialog {
    var formData: Form

    constructor()
      ensures formData == INITIAL_FORM
    {
      formData := INITIAL_FORM;
    }

    /** The effect on `course`: a given course refills the form; no course leaves it. */
    method Prefill(course: Option<CourseRow>)
      modifies this
      ensures course.Some? ==> formData == PrefillOf(course.value)
      ensures course.None? ==> formData == old(formData)
    {
      if course.Some? {
        formData := PrefillOf(course.value);
      }
    }

    /** `handleChangeField`. */
    method ChangeField(name: string, value: string)
      modifies this
      ensures formData == CourseForm.ChangeField(old(formData), name, value)
    {
      formData := CourseForm.ChangeField(formData, name, value);
    }

    /** The professors picker's `onChange`. */
    method ChangeProfessors(value: seq<UserRecord>)
      modifies this
      ensures formData == old(formData).(professors := value)
    {
      formData := formData.(professors := value);
    }

    /** The assistants picker's `onChange`. */
    method ChangeAssistants(value: seq<UserRecord>)
      modifies this
      ensures formData == old(formData).(assistants := value)
    {
      formData := formData.(assistants := value);
    }

    /**
     * `handleSubmit`: `onEdit(course.id, payload)` and then `onClose()`; with
     * no course, a TypeError and no call. The form itself is kept.
     */
    method Submit(course: Option<CourseRow>, toNumber: string -> Option<int>) returns (r: Result<seq<Call>>)
      ensures course.None? <==> r.Failure?
      ensures r.Failure? ==> r.exception == "TypeError"
      ensures r.Success? ==> r.value == [Edit(course.value.id, Payload(formData, toNumber)), Close]
    {
      if course.None? {
        return Failure("TypeError", "Cannot read properties of null (reading 'id')");
      }
      return Success([Edit(course.value.id, Payload(formData, toNumber)), Close]);
    }
  }
}
