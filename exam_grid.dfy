/**
 * The exams page: the normalisation of the exam hook's list, the search over
 * course name, course code and session, and the dialog state. Unlike the
 * course and user pages it consults no role: every visitor gets the add,
 * edit and delete controls.
 */
module ExamGrid {
  import opened Wrappers
  import opened Text
  import opened Seqs
  import opened JsValues
  import opened Search

  /** The course embedded in an exam, as the page reads it. */
  datatype ExamCourse = ExamCourse(courseName: Option<string>, courseCode: Option<string>)

  /** An exam as the page receives it; only the fields the page reads. */
  datatype ExamItem = ExamItem(id: Option<int>, course: Option<ExamCourse>, session: Option<string>)

  /** `allExams`: the hook's value if it is an array, else its `exams`, else its `data`, else []. */
  function AllExams(exams: Value<ExamItem>): (r: seq<ExamItem>)
    ensures exams.List? ==> r == exams.items
    ensures !Truthy(exams) ==> r == []
  {
    ArrayOrWrapped(exams, "exams", "data")
  }

  /** `e.course?.courseName` */
  function CourseName(e: ExamItem): Option<string> {
    if e.course.Some? then e.course.value.courseName else None
  }

  /** `e.course?.courseCode` */
  function CourseCode(e: ExamItem): Option<string> {
    if e.course.Some? then e.course.value.courseCode else None
  }

  /** The search test of one exam: its course's name or code, or its session, contains the term. */
  predicate MatchesTerm(e: ExamItem, term: string) {
    Mentions(CourseName(e), term) || Mentions(CourseCode(e), term) || Mentions(e.session, term)
  }

  /**
   * `filteredExams`: a blank search keeps every exam; otherwise the exams
   * whose course name, course code or session contains the term, in order.
   */
  function FilterBySearch(list: seq<ExamItem>, search: string): (r: seq<ExamItem>)
    ensures IsBlank(JavaScriptTrim, search) ==> r == list
    ensures !IsBlank(JavaScriptTrim, search) ==> forall i :: 0 <= i < |r| ==> r[i] in list && MatchesTerm(r[i], SearchTerm(search))
    ensures !IsBlank(JavaScriptTrim, search) ==>
              forall i :: 0 <= i < |list| && MatchesTerm(list[i], SearchTerm(search)) ==> list[i] in r
    ensures IsSubsequence(r, list)
  {
    var term := SearchTerm(search);
    if term == "" then
      SubsequenceOfItself(list);
      list
    else
      FilterIsSubsequence(list, (e: ExamItem) => MatchesTerm(e, term));
      Filter(list, (e: ExamItem) => MatchesTerm(e, term))
  }

  /** Searching a search result again with the same input changes nothing. */
  lemma FilterBySearchIdempotent(list: seq<ExamItem>, search: string)
    ensures FilterBySearch(FilterBySearch(list, search), search) == FilterBySearch(list, search)
  {
    var term := SearchTerm(search);
    if term != "" {
      FilterIdempotent(list, (e: ExamItem) => MatchesTerm(e, term));
    }
  }

  /** An exam without a course is found by its session only. */
  lemma ExamWithoutCourseBySession(e: ExamItem, term: string)
    requires e.course.None? && term != ""
    ensures MatchesTerm(e, term) <==> Mentions(e.session, term)
  {
    MissingFieldMatchesNothing(term);
  }

  /** The controls an exam card offers. */
  datatype CardActions = CardActions(details: bool, edit: bool, delete: bool)

  /** What the content area shows. */
  datatype View =
    | LoadingView
    | NoExams(addControl: bool)
    | ExamCards(exams: seq<ExamItem>, actions: CardActions)

  /**
   * The content area: the spinner while the exams load, else the empty state
   * (with its add control) when no exam passes the search, else one card per
   * exam with details, edit and delete. No role is consulted.
   */
  function Render(loading: bool, filtered: seq<ExamItem>): (r: View)
    ensures r.LoadingView? <==> loading
    ensures !loading && |filtered| == 0 ==> r == NoExams(true)
    ensures r.ExamCards? <==> !loading && |filtered| > 0
    ensures r.ExamCards? ==> r.exams == filtered && r.actions == CardActions(true, true, true)
  {
    if loading then LoadingView
    else if |filtered| == 0 then NoExams(true)
    else ExamCards(filtered, CardActions(true, true, true))
  }

  class Grid {
    var search: string
    var selectedExam: Option<ExamItem>
    var addOpen: bool
    var editOpen: bool
    var deleteOpen: bool
    var detailsOpen: bool

    /** The edit, delete and details dialogs are rendered only with a selected exam. */
    predicate Valid()
      reads this
    {
      editOpen || deleteOpen || detailsOpen ==> selectedExam.Some?
    }

    constructor()
      ensures search == "" && selectedExam.None? && !addOpen && !editOpen && !deleteOpen && !detailsOpen
      ensures Valid()
    {
      search, selectedExam := "", None;
      addOpen, editOpen, deleteOpen, detailsOpen := false, false, false, false;
    }

    /** The content area for the hook's value and loading flag. */
    function CurrentView(exams: Value<ExamItem>, loading: bool): View
      reads this
    {
      Render(loading, FilterBySearch(AllExams(exams), search))
    }

    method SetSearch(value: string)
      modifies this`search
      ensures search == value
    {
      search := value;
    }

    method OpenAdd()
      modifies this`addOpen
      ensures addOpen
    {
      addOpen := true;
    }

    method OpenDetails(exam: ExamItem)
      requires Valid()
      modifies this`selectedExam, this`detailsOpen
      ensures selectedExam == Some(exam) && detailsOpen
      ensures Valid()
    {
      selectedExam := Some(exam);
      detailsOpen := true;
    }

    method OpenEdit(exam: ExamItem)
      requires Valid()
      modifies this`selectedExam, this`editOpen
      ensures selectedExam == Some(exam) && editOpen
      ensures Valid()
    {
      selectedExam := Some(exam);
      editOpen := true;
    }

    method OpenDelete(exam: ExamItem)
      requires Valid()
      modifies this`selectedExam, this`deleteOpen
      ensures selectedExam == Some(exam) && deleteOpen
      ensures Valid()
    {
      selectedExam := Some(exam);
      deleteOpen := true;
    }

    /** `closeAllDialogs`: every dialog closed and no exam selected. */
    method CloseAllDialogs()
      modifies this`addOpen, this`editOpen, this`deleteOpen, this`detailsOpen, this`selectedExam
      ensures !addOpen && !editOpen && !deleteOpen && !detailsOpen && selectedExam.None?
      ensures Valid()
    {
      addOpen, editOpen, deleteOpen, detailsOpen := false, false, false, false;
      selectedExam := None;
    }
  }
}
