/**
 * The courses page: the search filter, the sections and card actions each
 * role sees, and the load sequence that asks for the current user and then
 * for the courses of the principal's role. The course hook returns a fixed
 * set of functions; awaiting one it does not return throws TypeError, which
 * the load sequence catches.
 */
module CourseGrid {
  import opened Wrappers
  import opened Text
  import opened Seqs
  import opened JsValues
  import opened Search

  const ROLE_ADMIN := "ADMINISTRATOR"
  const ROLE_STAFF := "STAFF"
  const ROLE_STUDENT := "STUDENT"
  const ROLE_USER := "USER"

  /** The functions `useCourses` returns. */
  const USE_COURSES_EXPORTS: set<string> :=
    {"onAdd", "onEdit", "onDelete", "findById", "exportEnrolledStudentsCsv", "importEnrolledStudentsCsv",
     "getEnrolledStudents", "getCourseAssignedStaff"}

  /** The grid asks the course hook for the two per-role listings, which it does not return. */
  lemma MissingCourseHooks()
    ensures "findAllForStaff" !in USE_COURSES_EXPORTS && "findAllForStudent" !in USE_COURSES_EXPORTS
    ensures "onAdd" in USE_COURSES_EXPORTS && "findById" in USE_COURSES_EXPORTS
  {
  }

  /** A course as the page receives it; only the fields the page reads. */
  datatype CourseItem = CourseItem(id: Option<int>, courseName: Option<string>, courseCode: Option<string>)

  /** The search test of one course: its name or its code contains the term. */
  predicate MatchesTerm(c: CourseItem, term: string) {
    Mentions(c.courseName, term) || Mentions(c.courseCode, term)
  }

  /**
   * `filterBySearch`: a blank search keeps the list as it is; otherwise the
   * courses whose name or code contains the term, in list order.
   */
  function FilterBySearch(list: seq<CourseItem>, search: string): (r: seq<CourseItem>)
    ensures IsBlank(JavaScriptTrim, search) ==> r == list
    ensures !IsBlank(JavaScriptTrim, search) ==> forall i :: 0 <= i < |r| ==> r[i] in list && MatchesTerm(r[i], SearchTerm(search))
    ensures !IsBlank(JavaScriptTrim, search) ==>
              forall i :: 0 <= i < |list| && MatchesTerm(list[i], SearchTerm(search)) ==> list[i] in r
    ensures IsSubsequence(r, list)
  {
    var term := SearchTerm(search);
    if term == "" then
      SubsequenceOfItself(list);
      list
    else
      FilterIsSubsequence(list, (c: CourseItem) => MatchesTerm(c, term));
      Filter(list, (c: CourseItem) => MatchesTerm(c, term))
  }

  /** Searching a search result again with the same input changes nothing. */
  lemma FilterBySearchIdempotent(list: seq<CourseItem>, search: string)
    ensures FilterBySearch(FilterBySearch(list, search), search) == FilterBySearch(list, search)
  {
    var term := SearchTerm(search);
    if term != "" {
      FilterIdempotent(list, (c: CourseItem) => MatchesTerm(c, term));
    }
  }

  /** The three controls a course card can show. */
  datatype CardActions = CardActions(details: bool, edit: bool, delete: bool)

  const FULL_ACTIONS := CardActions(true, true, true)
  const DETAILS_ONLY := CardActions(true, false, false)
  const READ_ONLY := CardActions(false, false, false)

  /** A titled list of course cards; an empty list shows the message instead, when there is one. */
  datatype Section = Section(title: string, courses: seq<CourseItem>, actions: CardActions,
                             emptyMessage: Option<string>)

  predicate Manages(role: Option<string>) {
    role == Some(ROLE_ADMIN) || role == Some(ROLE_STAFF)
  }

  /**
   * The sections under the toolbar, from the filtered lists. An administrator
   * manages every course; a member of staff manages the assigned courses and
   * a student opens the enrolled ones, each above a read-only list of all
   * courses. Role USER has its own guard and every other role, no role
   * included, a last guard that negates the four; both show the same
   * read-only list of all courses.
   */
  function SectionsFor(role: Option<string>, all: seq<CourseItem>, staff: seq<CourseItem>,
                       student: seq<CourseItem>): (r: seq<Section>)
    ensures |r| == (if role == Some(ROLE_STAFF) || role == Some(ROLE_STUDENT) then 2 else 1)
    ensures r[|r| - 1].courses == all
    ensures forall i :: 0 <= i < |r| ==> r[i].actions.edit == r[i].actions.delete
    ensures forall i :: 0 <= i < |r| && r[i].actions.edit ==>
              role == Some(ROLE_ADMIN) || (role == Some(ROLE_STAFF) && i == 0 && r[i].courses == staff)
    ensures forall i :: 0 <= i < |r| && r[i].actions.details ==>
              Manages(role) || (role == Some(ROLE_STUDENT) && i == 0 && r[i].courses == student)
    ensures role == Some(ROLE_ADMIN) ==> r[0].actions == FULL_ACTIONS
    ensures role == Some(ROLE_STAFF) ==> r[0].courses == staff && r[0].actions == FULL_ACTIONS
    ensures role == Some(ROLE_STUDENT) ==> r[0].courses == student && r[0].actions == DETAILS_ONLY
    ensures role != Some(ROLE_ADMIN) ==> r[|r| - 1].actions == READ_ONLY
  {
    var readOnly := Section("All courses", all, READ_ONLY, None);
    if role == Some(ROLE_STAFF) then
      [Section("My assigned courses", staff, FULL_ACTIONS, Some("You are not assigned to any course.")), readOnly]
    else if role == Some(ROLE_STUDENT) then
      [Section("My enrolled courses", student, DETAILS_ONLY, Some("You are not enrolled in any course.")), readOnly]
    else if role == Some(ROLE_ADMIN) then
      [Section("All courses (manage)", all, FULL_ACTIONS, None)]
    else
      [readOnly]
  }

  /**
   * Role USER, an unknown role and no role all see exactly the read-only list
   * of all courses.
   */
  lemma ReadOnlyWithoutOwnSection(role: Option<string>, all: seq<CourseItem>, staff: seq<CourseItem>,
                                  student: seq<CourseItem>)
    requires role != Some(ROLE_ADMIN) && role != Some(ROLE_STAFF) && role != Some(ROLE_STUDENT)
    ensures SectionsFor(role, all, staff, student) == [Section("All courses", all, READ_ONLY, None)]
    ensures SectionsFor(role, all, staff, student) == SectionsFor(Some(ROLE_USER), all, staff, student)
  {
  }

  /** What the content area shows. */
  datatype View =
    | LoadingView
    | NoCourses(addControl: bool)
    | CourseSections(sections: seq<Section>)

  /**
   * The content area: the spinner while anything loads, else the empty state
   * when the filtered list of all courses is empty (whatever the role's own
   * lists hold), else the sections. The empty state's add control is there
   * for an administrator or a member of staff only.
   */
  function Render(role: Option<string>, anyLoading: bool, all: seq<CourseItem>, staff: seq<CourseItem>,
                  student: seq<CourseItem>): (r: View)
    ensures r.LoadingView? <==> anyLoading
    ensures !anyLoading && |all| == 0 ==> r == NoCourses(Manages(role))
    ensures r.CourseSections? <==> !anyLoading && |all| > 0
    ensures r.CourseSections? ==> r.sections == SectionsFor(role, all, staff, student)
  {
    if anyLoading then LoadingView
    else if |all| == 0 then NoCourses(Manages(role))
    else CourseSections(SectionsFor(role, all, staff, student))
  }

  /**
   * When the listing of a member of staff or a student throws, as the missing
   * hook functions make it do, `Grid.Load` nulls the role and clears both own
   * lists; the content area then shows that user the read-only list of all
   * courses and no section of their own.
   */
  lemma FailedListingShowsAllCoursesOnly(all: seq<CourseItem>)
    requires |all| > 0
    ensures Render(None, false, all, [], []) == CourseSections([Section("All courses", all, READ_ONLY, None)])
  {
    ReadOnlyWithoutOwnSection(None, all, [], []);
  }

  /** The toolbar: search and reload for everyone, add for an administrator or a member of staff. */
  function ToolbarControls(role: Option<string>): (r: set<string>)
    ensures "search" in r && "reload" in r
    ensures "add" in r <==> role == Some(ROLE_ADMIN) || role == Some(ROLE_STAFF)
  {
    {"search", "reload"} + (if Manages(role) then {"add"} else {})
  }

  /** The current user as `me()` returns it. */
  datatype Me = Me(role: Option<string>)

  class Grid {
    /** The names of the functions the course hook returned. */
    const courseHooks: set<string>
    var courses: seq<CourseItem>
    var coursesLoading: bool
    var search: string
    var selectedCourse: Option<CourseItem>
    var addOpen: bool
    var editOpen: bool
    var deleteOpen: bool
    var detailsOpen: bool
    var role: Option<string>
    var staffCourses: seq<CourseItem>
    var studentCourses: seq<CourseItem>
    var meLoading: bool
    var staffLoading: bool
    var studentLoading: bool

    /** The edit, delete and details dialogs are rendered only with a selected course. */
    predicate Valid()
      reads this
    {
      editOpen || deleteOpen || detailsOpen ==> selectedCourse.Some?
    }

    constructor(courseHooks: set<string>)
      ensures this.courseHooks == courseHooks && courses == [] && coursesLoading
      ensures search == "" && selectedCourse.None? && !addOpen && !editOpen && !deleteOpen && !detailsOpen
      ensures role.None? && staffCourses == [] && studentCourses == []
      ensures meLoading && !staffLoading && !studentLoading
      ensures Valid()
    {
      this.courseHooks := courseHooks;
      courses, coursesLoading := [], true;
      search, selectedCourse := "", None;
      addOpen, editOpen, deleteOpen, detailsOpen := false, false, false, false;
      role, staffCourses, studentCourses := None, [], [];
      meLoading, staffLoading, studentLoading := true, false, false;
    }

    /** `isAnyLoading` */
    predicate AnyLoading()
      reads this
    {
      coursesLoading || meLoading || staffLoading || studentLoading
    }

    /** The content area for the current state. */
    function CurrentView(): View
      reads this
    {
      Render(role, AnyLoading(), FilterBySearch(courses, search), FilterBySearch(staffCourses, search),
             FilterBySearch(studentCourses, search))
    }

    /**
     * The `load` effect, with the answers of `me()` and of the two per-role
     * listings as parameters (a listing the hook did not return throws
     * TypeError when called). Without a current user nothing changes. A STAFF
     * or STUDENT principal gets its listing (a falsy answer read as []); a
     * listing that throws resets the role to none and empties both lists.
     * Every other role empties both lists. The load flag is cleared at the
     * end, and a listing's own flag once it has answered.
     */
    method Load(me: Option<Me>, staffListing: Result<Option<seq<CourseItem>>>,
                studentListing: Result<Option<seq<CourseItem>>>)
      modifies this`role, this`staffCourses, this`studentCourses, this`meLoading, this`staffLoading,
               this`studentLoading
      ensures !meLoading
      ensures me.None? ==>
                && role == old(role) && staffCourses == old(staffCourses) && studentCourses == old(studentCourses)
                && staffLoading == old(staffLoading) && studentLoading == old(studentLoading)
      ensures me.Some? && me.value.role == Some(ROLE_STAFF) ==>
                && !staffLoading && studentLoading == old(studentLoading)
                && if "findAllForStaff" in courseHooks && staffListing.Success?
                   then role == Some(ROLE_STAFF) && staffCourses == staffListing.value.GetOr([])
                        && studentCourses == old(studentCourses)
                   else role.None? && staffCourses == [] && studentCourses == []
      ensures me.Some? && me.value.role == Some(ROLE_STUDENT) ==>
                && !studentLoading && staffLoading == old(staffLoading)
                && if "findAllForStudent" in courseHooks && studentListing.Success?
                   then role == Some(ROLE_STUDENT) && studentCourses == studentListing.value.GetOr([])
                        && staffCourses == old(staffCourses)
                   else role.None? && staffCourses == [] && studentCourses == []
      ensures me.Some? && me.value.role != Some(ROLE_STAFF) && me.value.role != Some(ROLE_STUDENT) ==>
                && role == me.value.role && staffCourses == [] && studentCourses == []
                && staffLoading == old(staffLoading) && studentLoading == old(studentLoading)
    {
      meLoading := true;
      if me.None? {
        meLoading := false;
        return;
      }
      var userRole := me.value.role;
      role := userRole;
      var failed := false;
      if userRole == Some(ROLE_STAFF) {
        staffLoading := true;
        if "findAllForStaff" in courseHooks && staffListing.Success? {
          staffCourses := staffListing.value.GetOr([]);
        } else {
          failed := true;
        }
        staffLoading := false;
      } else if userRole == Some(ROLE_STUDENT) {
        studentLoading := true;
        if "findAllForStudent" in courseHooks && studentListing.Success? {
          studentCourses := studentListing.value.GetOr([]);
        } else {
          failed := true;
        }
        studentLoading := false;
      } else {
        staffCourses := [];
        studentCourses := [];
      }
      if failed {
        role := None;
        staffCourses := [];
        studentCourses := [];
      }
      meLoading := false;
    }

    method SetSearch(value: string)
      modifies this`search
      ensures search == value
    {
      search := value;
    }

    method OpenAdd()
      modifies this`addOpen
      ensures addOpen
    {
      addOpen := true;
    }

    method OpenDetails(course: CourseItem)
      requires Valid()
      modifies this`selectedCourse, this`detailsOpen
      ensures selectedCourse == Some(course) && detailsOpen
      ensures Valid()
    {
      selectedCourse := Some(course);
      detailsOpen := true;
    }

    method OpenEdit(course: CourseItem)
      requires Valid()
      modifies this`selectedCourse, this`editOpen
      ensures selectedCourse == Some(course) && editOpen
      ensures Valid()
    {
      selectedCourse := Some(course);
      editOpen := true;
    }

    method OpenDelete(course: CourseItem)
      requires Valid()
      modifies this`selectedCourse, this`deleteOpen
      ensures selectedCourse == Some(course) && deleteOpen
      ensures Valid()
    {
      selectedCourse := Some(course);
      deleteOpen := true;
    }

    /** `closeAllDialogs`: every dialog closed and no course selected. */
    method CloseAllDialogs()
      modifies this`addOpen, this`editOpen, this`deleteOpen, this`detailsOpen, this`selectedCourse
      ensures !addOpen && !editOpen && !deleteOpen && !detailsOpen && selectedCourse.None?
      ensures Valid()
    {
      addOpen, editOpen, deleteOpen, detailsOpen := false, false, false, false;
      selectedCourse := None;
    }
  }
}
