/**
 * The exam endpoints: the listing of all exams in schedule order, the
 * per-user listings built course by course, and the mapping of an empty
 * service result to 404. The application services behind the controller are
 * parameters: the list of all exams, the exams of one course, the staff
 * assignments and enrollments of the principal.
 */
module ExamController {
  import opened Wrappers
  import opened Entities
  import opened Seqs
  import opened ExamDto
  import opened Responses

  /** `DisplayExamDto`; the course is not needed here and is left out of the record. */
  datatype DisplayExam = DisplayExam(
    id: Option<int>,
    session: Option<string>,
    dateOfExam: Date,
    capacityOfStudents: Option<int>,
    reservedLaboratories: seq<string>,
    startTime: Time,
    endTime: Time)

  /**
   * `comparing(dateOfExam).reversed().thenComparing(startTime)` as a sort key:
   * later dates first, and on the same date earlier start times first.
   */
  function ScheduleKey(e: DisplayExam): (int, int) {
    (-e.dateOfExam, e.startTime)
  }

  /** Later dates come first; on one date, earlier starts come first. */
  ghost predicate InScheduleOrder(s: seq<DisplayExam>) {
    forall i, j :: 0 <= i < j < |s| ==>
      s[i].dateOfExam > s[j].dateOfExam
      || (s[i].dateOfExam == s[j].dateOfExam && s[i].startTime <= s[j].startTime)
  }

  /** `sorted(...)` by the schedule comparator (the stream sort is stable). */
  function SortBySchedule(exams: seq<DisplayExam>): (r: seq<DisplayExam>)
    ensures InScheduleOrder(r)
    ensures multiset(r) == multiset(exams)
  {
    var r := SortBy(exams, ScheduleKey);
    assert SortedBy(r, ScheduleKey);
    forall i, j | 0 <= i < j < |r|
      ensures r[i].dateOfExam > r[j].dateOfExam
              || (r[i].dateOfExam == r[j].dateOfExam && r[i].startTime <= r[j].startTime)
    {
      assert KeyLe(ScheduleKey(r[i]), ScheduleKey(r[j]));
    }
    r
  }

  /**
   * The stream sort is stable: exams on the same date with the same start
   * time keep their repository order.
   */
  lemma SortByScheduleStable(exams: seq<DisplayExam>, date: Date, start: Time)
    ensures KeyClass(SortBySchedule(exams), ScheduleKey, (-date, start)) == KeyClass(exams, ScheduleKey, (-date, start))
  {
    SortByStable(exams, ScheduleKey, (-date, start));
  }

  /** `findAll`: every exam, in schedule order; always 200. */
  function FindAll(exams: seq<DisplayExam>): (r: Response<seq<DisplayExam>>)
    ensures r.status == 200 && r.body.Some?
    ensures InScheduleOrder(r.body.value) && multiset(r.body.value) == multiset(exams)
  {
    Response(200, Some(SortBySchedule(exams)))
  }

  /** `findById`: the exam, or 404 when there is none with this id. */
  function FindById(findExam: int -> Option<DisplayExam>, id: int): (r: Response<DisplayExam>)
    ensures r.status == 404 <==> findExam(id).None?
    ensures r.status == 200 ==> r.body == findExam(id)
  {
    OkOrNotFound(findExam(id))
  }

  /**
   * `update`: a request breaking a constraint is answered with 400 before the
   * service is called; otherwise the updated exam, or 404 when there is none
   * with this id.
   */
  function Update(update: (int, CreateExamDto) -> Option<DisplayExam>, id: int, d: CreateExamDto, today: Date)
    : (r: Response<DisplayExam>)
    ensures r.status == 400 <==> Violations(d, today) != {}
    ensures r.status == 404 <==> Violations(d, today) == {} && update(id, d).None?
    ensures r.status == 200 ==> r.body == update(id, d)
  {
    if Violations(d, today) != {} then Response(400, None) else OkOrNotFound(update(id, d))
  }

  /** `save`: a request breaking a constraint is answered with 400; otherwise the saved exam. */
  function Save(save: CreateExamDto -> DisplayExam, d: CreateExamDto, today: Date): (r: Response<DisplayExam>)
    ensures r.status == 400 <==> Violations(d, today) != {}
    ensures r.status != 400 ==> r == Response(200, Some(save(d)))
  {
    if Violations(d, today) != {} then Response(400, None) else Response(200, Some(save(d)))
  }

  /** `deleteById`: the deleted exam, or 404 when there is none with this id. */
  function DeleteById(delete: int -> Option<DisplayExam>, id: int): (r: Response<DisplayExam>)
    ensures r.status == 404 <==> delete(id).None?
    ensures r.status == 200 ==> r.body == delete(id)
  {
    OkOrNotFound(delete(id))
  }

  /**
   * The `flatMap` shared by the two per-user listings: for each course id in
   * turn, that course's exams in schedule order.
   */
  function ExamsOfCourses(courseIds: seq<int>, examsOfCourse: int -> seq<DisplayExam>): (r: seq<DisplayExam>)
    ensures forall e :: e in r <==> exists k :: 0 <= k < |courseIds| && e in examsOfCourse(courseIds[k])
  {
    if |courseIds| == 0 then []
    else
      var first := examsOfCourse(courseIds[0]);
      var rest := ExamsOfCourses(courseIds[1..], examsOfCourse);
      SortedSameMembers(first);
      assert forall k :: 1 <= k < |courseIds| ==> courseIds[k] == courseIds[1..][k - 1];
      SortBySchedule(first) + rest
  }

  /** Sorting by schedule keeps the exams that are listed. */
  lemma SortedSameMembers(exams: seq<DisplayExam>)
    ensures forall e :: e in SortBySchedule(exams) <==> e in exams
  {
    var r := SortBySchedule(exams);
    forall e ensures e in r <==> e in exams {
      assert e in r <==> e in multiset(r);
      assert e in exams <==> e in multiset(exams);
    }
  }

  /** The listing of a concatenation of course lists is the concatenation of their listings. */
  lemma {:induction false} ExamsOfCoursesAppend(a: seq<int>, b: seq<int>, examsOfCourse: int -> seq<DisplayExam>)
    ensures ExamsOfCourses(a + b, examsOfCourse) == ExamsOfCourses(a, examsOfCourse) + ExamsOfCourses(b, examsOfCourse)
  {
    if |a| > 0 {
      assert (a + b)[1..] == a[1..] + b;
      ExamsOfCoursesAppend(a[1..], b, examsOfCourse);
    } else {
      assert a + b == b;
    }
  }

  /**
   * Course ids are not de-duplicated: a course listed twice (a member of staff
   * who is both its professor and its assistant) contributes its exams twice.
   */
  lemma RepeatedCourseListedTwice(a: seq<int>, c: int, b: seq<int>, examsOfCourse: int -> seq<DisplayExam>)
    ensures ExamsOfCourses(a + [c] + b + [c], examsOfCourse)
            == ExamsOfCourses(a, examsOfCourse) + SortBySchedule(examsOfCourse(c))
               + ExamsOfCourses(b, examsOfCourse) + SortBySchedule(examsOfCourse(c))
  {
    var one := SortBySchedule(examsOfCourse(c));
    assert ExamsOfCourses([c], examsOfCourse) == one by {
      assert [c][1..] == [];
      assert ExamsOfCourses([c], examsOfCourse) == one + ExamsOfCourses([], examsOfCourse);
    }
    ExamsOfCoursesAppend(a, [c], examsOfCourse);
    ExamsOfCoursesAppend(a + [c], b, examsOfCourse);
    ExamsOfCoursesAppend(a + [c] + b, [c], examsOfCourse);
  }

  /** The per-user listing is ordered course by course only, not as a whole. */
  lemma ListingNotGloballySorted()
    ensures var earlier := DisplayExam(Some(1), Some("June"), 10, Some(30), ["L1"], 9, 11);
            var later := DisplayExam(Some(2), Some("June"), 20, Some(30), ["L1"], 9, 11);
            var examsOfCourse := (c: int) => if c == 1 then [earlier] else [later];
            ExamsOfCourses([1, 2], examsOfCourse) == [earlier, later]
            && !InScheduleOrder(ExamsOfCourses([1, 2], examsOfCourse))
  {
    var earlier := DisplayExam(Some(1), Some("June"), 10, Some(30), ["L1"], 9, 11);
    var later := DisplayExam(Some(2), Some("June"), 20, Some(30), ["L1"], 9, 11);
    var examsOfCourse := (c: int) => if c == 1 then [earlier] else [later];
    SingleSorted(earlier);
    SingleSorted(later);
    assert [1, 2][1..] == [2] && [2][1..] == [];
    assert ExamsOfCourses([2], examsOfCourse) == [later] + ExamsOfCourses([], examsOfCourse);
    var listing := ExamsOfCourses([1, 2], examsOfCourse);
    assert listing == [earlier] + ExamsOfCourses([2], examsOfCourse);
    assert listing[0].dateOfExam < listing[1].dateOfExam;
  }

  lemma SingleSorted(e: DisplayExam)
    ensures SortBySchedule([e]) == [e]
  {
    assert multiset(SortBySchedule([e])) == multiset{e};
    assert |SortBySchedule([e])| == 1 by {
      assert |multiset(SortBySchedule([e]))| == 1;
    }
    assert SortBySchedule([e])[0] in multiset{e};
  }

  /**
   * `findAllExamsForStaff`: the exams of the courses of the principal's staff
   * assignments, in assignment order, each course's exams in schedule order.
   */
  function FindAllForStaff(assignedCourseIds: seq<int>, examsOfCourse: int -> seq<DisplayExam>)
    : (r: Response<seq<DisplayExam>>)
    ensures r.status == 200 && r.body == Some(ExamsOfCourses(assignedCourseIds, examsOfCourse))
  {
    Response(200, Some(ExamsOfCourses(assignedCourseIds, examsOfCourse)))
  }

  /**
   * `findAllExamsForStudent`: as for staff, over the courses the principal's
   * student profile is enrolled in. `studentDto.get()` throws
   * NoSuchElementException when the principal has no profile.
   */
  function FindAllForStudent(profileId: Option<int>, enrolledCourseIds: int -> seq<int>,
                             examsOfCourse: int -> seq<DisplayExam>): (r: Result<Response<seq<DisplayExam>>>)
    ensures r.Failure? <==> profileId.None?
    ensures r.Failure? ==> r.exception == "NoSuchElementException"
    ensures r.Success? ==> r.value.status == 200
                           && r.value.body == Some(ExamsOfCourses(enrolledCourseIds(profileId.value), examsOfCourse))
  {
    match profileId
    case None => Failure("NoSuchElementException", "No value present")
    case Some(p) => Success(Response(200, Some(ExamsOfCourses(enrolledCourseIds(p), examsOfCourse))))
  }
}
