/**
 * The exam edit dialog: the form prefilled from an exam (times cut to
 * HH:MM, laboratories joined into one text), the edits, and the request built
 * on submit (times padded back to HH:MM:SS, laboratories split again, empty
 * fields sent as null). JavaScript's `Number` on the typed capacity is a
 * parameter; its `None` stands for NaN, which JSON sends as null.
 */
module EditExamDialog {
  import opened Wrappers
  import opened Text
  import opened Seqs

  /** A course as the course picker offers it. */
  datatype CourseOption = CourseOption(id: int, courseCode: string, courseName: string)

  /** The exam the dialog edits, as the list passes it in. */
  datatype ExamRow = ExamRow(
    id: int,
    session: Option<string>,
    dateOfExam: Option<string>,
    capacityOfStudents: Option<int>,
    course: Option<CourseOption>,
    reservedLaboratories: Option<seq<string>>,
    startTime: Option<string>,
    endTime: Option<string>)

  /** The capacity field holds the exam's number after a prefill and the typed text after an edit. */
  datatype Capacity = CapNumber(n: int) | CapText(text: string)

  /** JavaScript truthiness of the capacity field. */
  predicate CapacityTruthy(c: Capacity) {
    match c
    case CapNumber(n) => n != 0
    case CapText(t) => t != ""
  }

  /** The form state. */
  datatype Form = Form(
    session: string,
    dateOfExam: string,
    capacityOfStudents: Capacity,
    course: Option<CourseOption>,
    reservedLaboratories: string,
    startTime: string,
    endTime: string)

  const EMPTY_FORM := Form("", "", CapText(""), None, "", "", "")

  /** `normalizeTime`: "" for a missing or empty time, otherwise its first five characters. */
  function NormalizeTime(t: Option<string>): (r: string)
    ensures t.None? || t.value == "" ==> r == ""
    ensures t.Some? ==> r <= t.value && |r| == Min(|t.value|, 5)
  {
    if t.None? || t.value == "" then ""
    else if |t.value| < 5 then t.value
    else t.value[..5]
  }

  function Min(a: int, b: int): int {
    if a < b then a else b
  }

  /** `buildTimeForApi`: null for an empty time, ":00" appended to HH:MM, anything else as typed. */
  function BuildTimeForApi(t: string): (r: Option<string>)
    ensures r.None? <==> t == ""
    ensures |t| == 5 ==> r == Some(t + ":00")
    ensures t != "" && |t| != 5 ==> r == Some(t)
  {
    if t == "" then None else if |t| == 5 then Some(t + ":00") else Some(t)
  }

  /** A time of at most five characters survives being sent and shown again. */
  lemma TimeRoundTrip(t: string)
    requires |t| <= 5
    ensures t != "" ==> NormalizeTime(BuildTimeForApi(t)) == t
    ensures t == "" ==> BuildTimeForApi(t).None? && NormalizeTime(BuildTimeForApi(t)) == ""
  {
    if |t| == 5 {
      assert (t + ":00")[..5] == t;
    }
  }

  /** A stored HH:MM:SS time that passes through the dialog unchanged comes back with zero seconds. */
  lemma SecondsReset(t: string)
    requires |t| >= 5
    ensures BuildTimeForApi(NormalizeTime(Some(t))) == Some(t[..5] + ":00")
  {
  }

  /** The laboratories text of the prefill: the list joined with ", ", or "" for none. */
  function LabsText(labs: Option<seq<string>>): (r: string)
    ensures labs.None? || labs.value == [] ==> r == ""
    ensures labs.Some? && |labs.value| == 1 ==> r == labs.value[0]
  {
    if labs.Some? && |labs.value| > 0 then Join(labs.value, ", ") else ""
  }

  function TrimAll(pieces: seq<string>): (r: seq<string>)
    ensures |r| == |pieces| && forall i :: 0 <= i < |r| ==> r[i] == Trim(JavaScriptTrim, pieces[i])
  {
    seq(|pieces|, i requires 0 <= i < |pieces| => Trim(JavaScriptTrim, pieces[i]))
  }

  /** The `filter(Boolean)` test on strings. */
  const NON_EMPTY: string -> bool := (lab: string) => lab != ""

  /** A laboratory name as a list item: non-empty, trimmed and without a comma. */
  predicate CleanLab(lab: string) {
    lab != "" && IsTrimmed(JavaScriptTrim, lab) && ',' !in lab
  }

  /** The laboratories of the request: the text split at commas, each piece trimmed, empty pieces dropped. */
  function ParseLabs(text: string): (r: seq<string>)
    ensures forall i :: 0 <= i < |r| ==> CleanLab(r[i])
    ensures |r| <= |Split(text, ',')|
  {
    var pieces := Split(text, ',');
    var trimmed := TrimAll(pieces);
    forall i | 0 <= i < |trimmed|
      ensures ',' !in trimmed[i]
    {
      TrimKeepsAbsent(JavaScriptTrim, pieces[i], ',');
    }
    Filter(trimmed, NON_EMPTY)
  }

  /** The pieces of a ", "-joined list of comma-free names: the first name, then each other one after a space. */
  lemma {:induction false} SplitJoined(labs: seq<string>)
    requires |labs| > 0 && forall i :: 0 <= i < |labs| ==> ',' !in labs[i]
    ensures var pieces := Split(Join(labs, ", "), ',');
            && |pieces| == |labs| && pieces[0] == labs[0]
            && forall i :: 1 <= i < |labs| ==> pieces[i] == " " + labs[i]
  {
    if |labs| > 1 {
      var rest := labs[1..];
      var joinedRest := Join(rest, ", ");
      SplitJoined(rest);
      var restPieces := Split(joinedRest, ',');
      assert Join(labs, ", ") == labs[0] + [','] + (" " + joinedRest) by {
        assert Join(labs, ", ") == labs[0] + ", " + joinedRest;
        assert ", " == [','] + " ";
      }
      SplitAtFirstSeparator(labs[0], ',', " " + joinedRest);
      var spacedRest := Split(" " + joinedRest, ',');
      assert spacedRest == [" " + restPieces[0]] + restPieces[1..] by {
        assert (" " + joinedRest)[1..] == joinedRest;
      }
      var pieces := Split(Join(labs, ", "), ',');
      assert pieces == [labs[0]] + spacedRest;
      forall i | 1 <= i < |labs|
        ensures pieces[i] == " " + labs[i]
      {
        assert pieces[i] == spacedRest[i - 1];
        if i > 1 {
          assert spacedRest[i - 1] == restPieces[i - 1];
          assert restPieces[i - 1] == " " + rest[i - 1];
        }
      }
    } else {
      SplitWithoutSeparator(labs[0], ',');
    }
  }

  /**
   * Prefill and submit are inverse on the laboratories: parsing the joined
   * text gives back a list of clean names.
   */
  lemma LabsRoundTrip(labs: seq<string>)
    requires forall i :: 0 <= i < |labs| ==> CleanLab(labs[i])
    ensures ParseLabs(LabsText(Some(labs))) == labs
  {
    if |labs| == 0 {
      assert Split("", ',') == [""];
      assert Trim(JavaScriptTrim, "") == "";
      assert TrimAll([""]) == [""];
      assert Filter([""], NON_EMPTY) == [] + Filter([""][1..], NON_EMPTY);
    } else {
      SplitJoined(labs);
      var pieces := Split(Join(labs, ", "), ',');
      var trimmed := TrimAll(pieces);
      forall i | 0 <= i < |labs|
        ensures trimmed[i] == labs[i]
      {
        TrimOfTrimmed(JavaScriptTrim, labs[i]);
        if i > 0 {
          TrimDropsLeadingSpace(JavaScriptTrim, labs[i]);
        }
      }
      assert trimmed == labs;
      FilterKeepsAll(labs, NON_EMPTY);
    }
  }

  /** The request has no laboratory exactly when every comma-separated piece of the text is blank. */
  lemma {:induction false} ParseEmptyIffBlankPieces(text: string)
    ensures ParseLabs(text) == [] <==> forall i :: 0 <= i < |Split(text, ',')| ==> IsBlank(JavaScriptTrim, Split(text, ',')[i])
  {
    var pieces := Split(text, ',');
    ParseLabsFilters(text);
    BlankIffTrimmedEmpty(pieces);
    FilterEmptyIffAllEmpty(TrimAll(pieces));
  }

  /** `ParseLabs` keeps the non-empty trimmed pieces. */
  lemma ParseLabsFilters(text: string)
    ensures ParseLabs(text) == Filter(TrimAll(Split(text, ',')), NON_EMPTY)
  {
  }

  /** A piece is blank exactly when its trimmed form is empty. */
  lemma {:induction false} BlankIffTrimmedEmpty(pieces: seq<string>)
    ensures forall i :: 0 <= i < |pieces| ==> (IsBlank(JavaScriptTrim, pieces[i]) <==> TrimAll(pieces)[i] == "")
  {
    forall i | 0 <= i < |pieces|
      ensures IsBlank(JavaScriptTrim, pieces[i]) <==> TrimAll(pieces)[i] == ""
    {
      TrimEmptyIffBlank(JavaScriptTrim, pieces[i]);
    }
  }

  lemma FilterEmptyIffAllEmpty(trimmed: seq<string>)
    ensures Filter(trimmed, NON_EMPTY) == [] <==> forall i :: 0 <= i < |trimmed| ==> trimmed[i] == ""
  {
    var r := Filter(trimmed, NON_EMPTY);
    if r != [] {
      assert r[0] in trimmed && r[0] != "";
    }
  }

  /** The form filled from an exam: text fields default to "", times cut to HH:MM, labs joined. */
  function PrefillOf(exam: ExamRow): (r: Form)
    ensures r.session == exam.session.GetOr("") && r.dateOfExam == exam.dateOfExam.GetOr("")
    ensures r.capacityOfStudents == (if exam.capacityOfStudents.Some? then CapNumber(exam.capacityOfStudents.value)
                                     else CapText(""))
    ensures r.course == exam.course
    ensures r.reservedLaboratories == LabsText(exam.reservedLaboratories)
    ensures |r.startTime| <= 5 && |r.endTime| <= 5
  {
    Form(exam.session.GetOr(""), exam.dateOfExam.GetOr(""),
         if exam.capacityOfStudents.Some? then CapNumber(exam.capacityOfStudents.value) else CapText(""),
         exam.course, LabsText(exam.reservedLaboratories),
         NormalizeTime(exam.startTime), NormalizeTime(exam.endTime))
  }

  /** The request body of an exam update. */
  datatype ExamPayload = ExamPayload(
    session: string,
    dateOfExam: Option<string>,
    capacityOfStudents: Option<int>,
    courseId: Option<int>,
    reservedLaboratories: seq<string>,
    startTime: Option<string>,
    endTime: Option<string>)

  /**
   * The payload of `handleSubmit`: an empty date and a falsy capacity become
   * null, a course is sent by its id only, the laboratories are parsed and
   * the times padded.
   */
  function PayloadOf(form: Form, toNumber: string -> Option<int>): (r: ExamPayload)
    ensures r.session == form.session
    ensures r.dateOfExam.None? <==> form.dateOfExam == ""
    ensures r.dateOfExam.Some? ==> r.dateOfExam.value == form.dateOfExam
    ensures !CapacityTruthy(form.capacityOfStudents) ==> r.capacityOfStudents.None?
    ensures form.capacityOfStudents.CapNumber? && CapacityTruthy(form.capacityOfStudents) ==>
              r.capacityOfStudents == Some(form.capacityOfStudents.n)
    ensures form.capacityOfStudents.CapText? && CapacityTruthy(form.capacityOfStudents) ==>
              r.capacityOfStudents == toNumber(form.capacityOfStudents.text)
    ensures r.courseId.Some? <==> form.course.Some?
    ensures r.courseId.Some? ==> r.courseId.value == form.course.value.id
    ensures r.reservedLaboratories == ParseLabs(form.reservedLaboratories)
    ensures r.startTime == BuildTimeForApi(form.startTime) && r.endTime == BuildTimeForApi(form.endTime)
  {
    var capacity :=
      if !CapacityTruthy(form.capacityOfStudents) then None
      else match form.capacityOfStudents
        case CapNumber(n) => Some(n)
        case CapText(t) => toNumber(t);
    ExamPayload(form.session, if form.dateOfExam == "" then None else Some(form.dateOfExam), capacity,
                if form.course.Some? then Some(form.course.value.id) else None,
                ParseLabs(form.reservedLaboratories),
                BuildTimeForApi(form.startTime), BuildTimeForApi(form.endTime))
  }

  /**
   * Saving a prefilled form unchanged keeps the exam's session, date, course
   * and clean laboratories, and sends its times with zero seconds; a capacity
   * of 0 is falsy and is sent as null.
   */
  lemma UntouchedSave(exam: ExamRow, toNumber: string -> Option<int>)
    requires exam.reservedLaboratories.Some? ==>
               forall i :: 0 <= i < |exam.reservedLaboratories.value| ==> CleanLab(exam.reservedLaboratories.value[i])
    ensures var p := PayloadOf(PrefillOf(exam), toNumber);
            && p.session == exam.session.GetOr("")
            && (exam.dateOfExam.Some? && exam.dateOfExam.value != "" ==> p.dateOfExam == exam.dateOfExam)
            && (exam.capacityOfStudents.Some? && exam.capacityOfStudents.value != 0 ==>
                  p.capacityOfStudents == exam.capacityOfStudents)
            && (exam.capacityOfStudents == Some(0) ==> p.capacityOfStudents.None?)
            && p.courseId == (if exam.course.Some? then Some(exam.course.value.id) else None)
            && p.reservedLaboratories == exam.reservedLaboratories.GetOr([])
            && (exam.startTime.Some? && |exam.startTime.value| >= 5 ==>
                  p.startTime == Some(exam.startTime.value[..5] + ":00"))
  {
    var form := PrefillOf(exam);
    var p := PayloadOf(form, toNumber);
    var labs := exam.reservedLaboratories.GetOr([]);
    assert form.reservedLaboratories == LabsText(Some(labs));
    LabsRoundTrip(labs);
    assert p.reservedLaboratories == labs;
    if exam.startTime.Some? && |exam.startTime.value| >= 5 {
      SecondsReset(exam.startTime.value);
    }
  }

  /** What `handleSubmit` asks of the page, in order. */
  datatype Call = Edit(id: int, payload: ExamPayload) | Close

  /** `handleSubmit`: nothing without an exam; otherwise `onEdit(exam.id, payload)` and then `onClose()`. */
  function SubmitCalls(form: Form, exam: Option<ExamRow>, toNumber: string -> Option<int>): (r: seq<Call>)
    ensures exam.None? <==> r == []
    ensures exam.Some? ==> |r| == 2 && r[0].Edit? && r[0].id == exam.value.id && r[1] == Close
    ensures exam.Some? ==> r[0].payload == PayloadOf(form, toNumber)
  {
    if exam.None? then [] else [Edit(exam.value.id, PayloadOf(form, toNumber)), Close]
  }

  /** The dialog's form. */
  class Dialog {
    var formData: Form

    constructor()
      ensures formData == EMPTY_FORM
    {
      formData := EMPTY_FORM;
    }

    /** The effect on `exam`: a given exam refills the form; no exam leaves it as it is. */
    method Prefill(exam: Option<ExamRow>)
      modifies this
      ensures exam.Some? ==> formData == PrefillOf(exam.value)
      ensures exam.None? ==> formData == old(formData)
    {
      if exam.Some? {
        formData := PrefillOf(exam.value);
      }
    }

    /** `handleChangeField`: the named text field takes the typed value; an unknown name changes nothing here. */
    method ChangeField(name: string, value: string)
      modifies this
      ensures name == "session" ==> formData == old(formData).(session := value)
      ensures name == "dateOfExam" ==> formData == old(formData).(dateOfExam := value)
      ensures name == "capacityOfStudents" ==> formData == old(formData).(capacityOfStudents := CapText(value))
      ensures name == "reservedLaboratories" ==> formData == old(formData).(reservedLaboratories := value)
      ensures name == "startTime" ==> formData == old(formData).(startTime := value)
      ensures name == "endTime" ==> formData == old(formData).(endTime := value)
      ensures name !in {"session", "dateOfExam", "capacityOfStudents", "reservedLaboratories", "startTime", "endTime"} ==>
                formData == old(formData)
    {
      match name
      case "session" => formData := formData.(session := value);
      case "dateOfExam" => formData := formData.(dateOfExam := value);
      case "capacityOfStudents" => formData := formData.(capacityOfStudents := CapText(value));
      case "reservedLaboratories" => formData := formData.(reservedLaboratories := value);
      case "startTime" => formData := formData.(startTime := value);
      case "endTime" => formData := formData.(endTime := value);
      case _ =>
    }

    /** `handleChangeCourse`: the picked course, or none when the picker is cleared. */
    method ChangeCourse(value: Option<CourseOption>)
      modifies this
      ensures formData == old(formData).(course := value)
    {
      formData := formData.(course := value);
    }
  }
}
