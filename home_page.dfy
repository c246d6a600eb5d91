/**
 * The home page: the role it assumes for a visitor, the text helpers of the
 * upcoming-exams card and the choice of the next three exams. Dates are
 * parsed by a parameter `parse` that maps the ISO local date-time text the
 * page builds to a timestamp, or to nothing where the browser's `Date`
 * yields NaN; the current time is a parameter too.
 */
module HomePage {
  import opened Wrappers
  import opened Text
  import opened Seqs
  import opened JsValues

  const ROLE_ADMIN := "ADMINISTRATOR"
  const ROLE_STAFF := "STAFF"
  const ROLE_USER := "USER"

  /** The dash shown for a missing value. */
  const DASH := "—"

  /** `user?.role || ROLE_USER`: the role of the page; a visitor without one is a USER. */
  function PageRole(userRole: Option<string>): (r: string)
    ensures Present(userRole) ==> r == userRole.value
    ensures !Present(userRole) ==> r == ROLE_USER
  {
    OrElse(userRole, ROLE_USER)
  }

  /** `canManage` */
  predicate CanManage(role: string) {
    role == ROLE_ADMIN || role == ROLE_STAFF
  }

  /** Only an administrator or a member of staff manages; no role at all counts as USER. */
  lemma ManagersOnly(userRole: Option<string>)
    ensures CanManage(PageRole(userRole)) <==> userRole == Some(ROLE_ADMIN) || userRole == Some(ROLE_STAFF)
  {
  }

  /** `normalizeTime`: the dash for a missing or empty time, otherwise its first five characters at most. */
  function NormalizeTime(t: Option<string>): (r: string)
    ensures !Present(t) ==> r == DASH
    ensures Present(t) ==> r == t.value[..if |t.value| < 5 then |t.value| else 5]
    ensures 1 <= |r| <= 5
  {
    if !Present(t) then DASH
    else if |t.value| < 5 then t.value
    else t.value[..5]
  }

  /** Normalising a normalised time changes nothing. */
  lemma NormalizeTimeIdempotent(t: Option<string>)
    ensures NormalizeTime(Some(NormalizeTime(t))) == NormalizeTime(t)
  {
  }

  /**
   * `toDate`: nothing without a date; otherwise the parse of
   * `<date>T<time>:00`, where a time that normalises to the dash reads as
   * 00:00.
   */
  function ToDate(dateOfExam: Option<string>, startTime: Option<string>, parse: string -> Option<int>)
    : (r: Option<int>)
    ensures !Present(dateOfExam) ==> r.None?
    ensures Present(dateOfExam) && !Present(startTime) ==> r == parse(dateOfExam.value + "T00:00:00")
    ensures Present(dateOfExam) && Present(startTime) && |startTime.value| >= 5 ==>
              r == parse(dateOfExam.value + "T" + startTime.value[..5] + ":00")
  {
    if !Present(dateOfExam) then None
    else
      var time := NormalizeTime(startTime);
      var safeTime := if time == DASH then "00:00" else time;
      assert !Present(startTime) ==>
        dateOfExam.value + "T" + safeTime + ":00" == dateOfExam.value + "T00:00:00";
      parse(dateOfExam.value + "T" + safeTime + ":00")
  }

  /** A missing start time is midnight. */
  lemma MissingTimeIsMidnight(dateOfExam: Option<string>, parse: string -> Option<int>)
    ensures ToDate(dateOfExam, None, parse) == ToDate(dateOfExam, Some("00:00"), parse)
    ensures ToDate(dateOfExam, Some(""), parse) == ToDate(dateOfExam, None, parse)
  {
    assert NormalizeTime(Some("00:00")) == "00:00";
  }

  /** Seconds in the start time are dropped before parsing. */
  lemma SecondsIgnored(dateOfExam: Option<string>, hhmm: string, parse: string -> Option<int>)
    requires |hhmm| == 5 && hhmm != DASH
    ensures ToDate(dateOfExam, Some(hhmm + ":30"), parse) == ToDate(dateOfExam, Some(hhmm), parse)
  {
    assert (hhmm + ":30")[..5] == hhmm;
    assert NormalizeTime(Some(hhmm + ":30")) == hhmm;
    assert hhmm[..5] == hhmm;
    assert NormalizeTime(Some(hhmm)) == hhmm;
  }

  /** `formatRooms`: the dash when there is no non-empty list of rooms, else the rooms joined by ", ". */
  function FormatRooms(rooms: Option<seq<string>>): (r: string)
    ensures rooms.None? || rooms.value == [] ==> r == DASH
    ensures rooms.Some? && |rooms.value| == 1 ==> r == rooms.value[0]
    ensures rooms.Some? && |rooms.value| > 1 ==> r == rooms.value[0] + ", " + Join(rooms.value[1..], ", ")
  {
    if rooms.None? || |rooms.value| == 0 then DASH else Join(rooms.value, ", ")
  }

  /** An exam as the page receives it; only the fields the page reads. */
  datatype HomeExam = HomeExam(
    id: Option<int>,
    courseName: Option<string>,
    session: Option<string>,
    dateOfExam: Option<string>,
    startTime: Option<string>,
    endTime: Option<string>,
    reservedLaboratories: Option<seq<string>>)

  /** `toDate(e.dateOfExam, e.startTime)` as a timestamp: the stamp by which exams are ordered. */
  function Timestamp(parse: string -> Option<int>): HomeExam -> Option<int> {
    (e: HomeExam) => ToDate(e.dateOfExam, e.startTime, parse)
  }

  /** An exam that has a stamp, not before `nowTs`. */
  predicate Upcoming(e: HomeExam, nowTs: int, stamp: HomeExam -> Option<int>) {
    stamp(e).Some? && stamp(e).value >= nowTs
  }

  /** An exam paired with its timestamp. */
  datatype Timed = Timed(exam: HomeExam, ts: int)

  function ByTime(t: Timed): (int, int) {
    (t.ts, 0)
  }

  /** `map(...).filter(x => x.dt)`: the exams that have a stamp, with it, in order. */
  function Timestamped(exams: seq<HomeExam>, stamp: HomeExam -> Option<int>): (r: seq<Timed>)
    ensures forall i :: 0 <= i < |r| ==> r[i].exam in exams && stamp(r[i].exam) == Some(r[i].ts)
    ensures forall e :: e in exams && stamp(e).Some? ==> Timed(e, stamp(e).value) in r
  {
    if |exams| == 0 then []
    else
      var t := stamp(exams[0]);
      (if t.Some? then [Timed(exams[0], t.value)] else []) + Timestamped(exams[1..], stamp)
  }

  /** `x.dt.getTime() >= nowTs` */
  function NotBefore(nowTs: int): Timed -> bool {
    (t: Timed) => t.ts >= nowTs
  }

  /** The exams of timed entries, in order. */
  function ExamsOf(ts: seq<Timed>): (r: seq<HomeExam>)
    ensures |r| == |ts| && forall i :: 0 <= i < |ts| ==> r[i] == ts[i].exam
  {
    seq(|ts|, i requires 0 <= i < |ts| => ts[i].exam)
  }

  /** The entries `upcomingExams` keeps: sorted by time, not before `nowTs`, the first three. */
  function Shown(exams: seq<HomeExam>, nowTs: int, stamp: HomeExam -> Option<int>): (r: seq<Timed>)
    ensures |r| <= 3
    ensures forall i :: 0 <= i < |r| ==>
              r[i].exam in exams && stamp(r[i].exam) == Some(r[i].ts) && r[i].ts >= nowTs
    ensures forall i, j :: 0 <= i < j < |r| ==> r[i].ts <= r[j].ts
  {
    var sorted := SortBy(Timestamped(exams, stamp), ByTime);
    var upcoming := Filter(sorted, NotBefore(nowTs));
    var shown := upcoming[..if |upcoming| < 3 then |upcoming| else 3];
    ShownAreUpcoming(exams, nowTs, stamp, sorted, upcoming, shown);
    FilterKeepsSorted(sorted, NotBefore(nowTs), ByTime);
    ShownAscending(upcoming, shown);
    shown
  }

  /** `upcomingExams`, with `stamp` the exams' timestamps (`Timestamp(parse)` on the page). */
  function UpcomingExams(exams: seq<HomeExam>, nowTs: int, stamp: HomeExam -> Option<int>): (r: seq<HomeExam>)
    ensures |r| <= 3
    ensures forall i :: 0 <= i < |r| ==> r[i] in exams && Upcoming(r[i], nowTs, stamp)
  {
    ExamsOf(Shown(exams, nowTs, stamp))
  }

  /**
   * `upcomingExams` shows at most three exams that have a stamp not before
   * `nowTs`, in ascending time order. They are the earliest ones: an upcoming
   * exam is left out only when three are shown and it is no earlier than the
   * last of them.
   */
  lemma UpcomingExamsSpec(exams: seq<HomeExam>, nowTs: int, stamp: HomeExam -> Option<int>)
    ensures var r := UpcomingExams(exams, nowTs, stamp);
            && |r| <= 3
            && (forall i :: 0 <= i < |r| ==> r[i] in exams && Upcoming(r[i], nowTs, stamp))
            && (forall i, j :: 0 <= i < j < |r| ==>
                  stamp(r[i]).Some? && stamp(r[j]).Some? && stamp(r[i]).value <= stamp(r[j]).value)
            && (forall e :: e in exams && Upcoming(e, nowTs, stamp)
                            && (|r| < 3 || (stamp(r[|r| - 1]).Some? && stamp(e).value < stamp(r[|r| - 1]).value))
                            ==> e in r)
  {
    var sorted := SortBy(Timestamped(exams, stamp), ByTime);
    var upcoming := Filter(sorted, NotBefore(nowTs));
    var shown := Shown(exams, nowTs, stamp);
    ShownAreUpcoming(exams, nowTs, stamp, sorted, upcoming, shown);
    FilterKeepsSorted(sorted, NotBefore(nowTs), ByTime);
    ShownAscending(upcoming, shown);
    UpcomingComplete(exams, nowTs, stamp, sorted, upcoming);
    ShownAreEarliest(exams, nowTs, stamp, upcoming, shown);
    ExamsOfShown(exams, nowTs, stamp, shown);
  }

  /** The facts about the shown entries, read off their exams. */
  lemma ExamsOfShown(exams: seq<HomeExam>, nowTs: int, stamp: HomeExam -> Option<int>, shown: seq<Timed>)
    requires |shown| <= 3
    requires forall i :: 0 <= i < |shown| ==>
               shown[i].exam in exams && stamp(shown[i].exam) == Some(shown[i].ts) && shown[i].ts >= nowTs
    requires forall i, j :: 0 <= i < j < |shown| ==> shown[i].ts <= shown[j].ts
    requires forall e :: e in exams && Upcoming(e, nowTs, stamp)
                         && (|shown| < 3 || stamp(e).value < shown[|shown| - 1].ts)
                         ==> exists k :: 0 <= k < |shown| && shown[k].exam == e
    ensures var r := ExamsOf(shown);
            && |r| <= 3
            && (forall i :: 0 <= i < |r| ==> r[i] in exams && Upcoming(r[i], nowTs, stamp))
            && (forall i, j :: 0 <= i < j < |r| ==>
                  stamp(r[i]).Some? && stamp(r[j]).Some? && stamp(r[i]).value <= stamp(r[j]).value)
            && (forall e :: e in exams && Upcoming(e, nowTs, stamp)
                            && (|r| < 3 || (stamp(r[|r| - 1]).Some? && stamp(e).value < stamp(r[|r| - 1]).value))
                            ==> e in r)
  {
    var r := ExamsOf(shown);
    forall e | e in exams && Upcoming(e, nowTs, stamp)
               && (|r| < 3 || (stamp(r[|r| - 1]).Some? && stamp(e).value < stamp(r[|r| - 1]).value))
      ensures e in r
    {
      var k :| 0 <= k < |shown| && shown[k].exam == e;
      assert r[k] == e;
    }
  }

  /** The shown entries are stamped exams of the list, not before `nowTs`. */
  lemma ShownAreUpcoming(exams: seq<HomeExam>, nowTs: int, stamp: HomeExam -> Option<int>,
                         sorted: seq<Timed>, upcoming: seq<Timed>, shown: seq<Timed>)
    requires sorted == SortBy(Timestamped(exams, stamp), ByTime)
    requires upcoming == Filter(sorted, NotBefore(nowTs))
    requires shown == upcoming[..if |upcoming| < 3 then |upcoming| else 3]
    ensures forall i :: 0 <= i < |shown| ==>
              shown[i].exam in exams && stamp(shown[i].exam) == Some(shown[i].ts) && shown[i].ts >= nowTs
  {
    var timed := Timestamped(exams, stamp);
    forall i | 0 <= i < |shown|
      ensures shown[i].exam in exams && stamp(shown[i].exam) == Some(shown[i].ts) && shown[i].ts >= nowTs
    {
      assert shown[i] in upcoming;
      assert shown[i] in sorted;
      assert shown[i] in multiset(timed);
    }
  }

  /** The shown entries are in ascending time order. */
  lemma ShownAscending(upcoming: seq<Timed>, shown: seq<Timed>)
    requires SortedBy(upcoming, ByTime)
    requires shown == upcoming[..if |upcoming| < 3 then |upcoming| else 3]
    ensures forall i, j :: 0 <= i < j < |shown| ==> shown[i].ts <= shown[j].ts
  {
    forall i, j | 0 <= i < j < |shown|
      ensures shown[i].ts <= shown[j].ts
    {
      SortedAt(upcoming, ByTime, i, j);
    }
  }

  /** Every upcoming exam earlier than the last shown one, or all of them when fewer than three are shown, is shown. */
  lemma ShownAreEarliest(exams: seq<HomeExam>, nowTs: int, stamp: HomeExam -> Option<int>,
                         upcoming: seq<Timed>, shown: seq<Timed>)
    requires SortedBy(upcoming, ByTime)
    requires forall e :: e in exams && Upcoming(e, nowTs, stamp) ==> Timed(e, stamp(e).value) in upcoming
    requires shown == upcoming[..if |upcoming| < 3 then |upcoming| else 3]
    ensures forall e :: e in exams && Upcoming(e, nowTs, stamp)
                        && (|shown| < 3 || stamp(e).value < shown[|shown| - 1].ts)
                        ==> exists k :: 0 <= k < |shown| && shown[k].exam == e
  {
    forall e | e in exams && Upcoming(e, nowTs, stamp) && (|shown| < 3 || stamp(e).value < shown[|shown| - 1].ts)
      ensures exists k :: 0 <= k < |shown| && shown[k].exam == e
    {
      var t := Timed(e, stamp(e).value);
      ShownIfEarlier(upcoming, shown, t);
      var k :| 0 <= k < |shown| && shown[k] == t;
      assert shown[k].exam == e;
    }
  }

  /** An entry of the sorted upcoming list earlier than the last shown one, or any when fewer than three are shown, is shown. */
  lemma ShownIfEarlier(upcoming: seq<Timed>, shown: seq<Timed>, t: Timed)
    requires SortedBy(upcoming, ByTime) && t in upcoming
    requires shown == upcoming[..if |upcoming| < 3 then |upcoming| else 3]
    requires |shown| < 3 || t.ts < shown[|shown| - 1].ts
    ensures t in shown
  {
    var k :| 0 <= k < |upcoming| && upcoming[k] == t;
    if k >= |shown| {
      SortedAt(upcoming, ByTime, |shown| - 1, k);
      assert false;
    }
    assert shown[k] == t;
  }

  /** Every stamped exam of the list not before `nowTs` is in the upcoming list. */
  lemma UpcomingComplete(exams: seq<HomeExam>, nowTs: int, stamp: HomeExam -> Option<int>,
                         sorted: seq<Timed>, upcoming: seq<Timed>)
    requires sorted == SortBy(Timestamped(exams, stamp), ByTime)
    requires upcoming == Filter(sorted, NotBefore(nowTs))
    ensures forall e :: e in exams && Upcoming(e, nowTs, stamp) ==> Timed(e, stamp(e).value) in upcoming
  {
    var timed := Timestamped(exams, stamp);
    forall e | e in exams && Upcoming(e, nowTs, stamp)
      ensures Timed(e, stamp(e).value) in upcoming
    {
      var t := Timed(e, stamp(e).value);
      assert t in multiset(timed);
      assert t in sorted;
      assert NotBefore(nowTs)(t);
    }
  }

  /** The headline above the counters. */
  function Headline(isLoggedIn: bool, role: string): (r: string)
    ensures !isLoggedIn ==> r == "All your academic data in one clear view."
    ensures isLoggedIn && role == ROLE_ADMIN ==> r == "Full control over courses, exams and roles."
    ensures isLoggedIn && role == ROLE_STAFF ==> r == "Keep teaching and assessment aligned — fast and consistent."
    ensures isLoggedIn && !CanManage(role) ==> r == "Browse everything safely — view-only access."
  {
    if !isLoggedIn then "All your academic data in one clear view."
    else if role == ROLE_ADMIN then "Full control over courses, exams and roles."
    else if role == ROLE_STAFF then "Keep teaching and assessment aligned — fast and consistent."
    else "Browse everything safely — view-only access."
  }

  /** A counter: the ellipsis while anything loads, else the length of the list (0 without one). */
  function Counter<T>(loading: bool, list: Option<seq<T>>): (r: string)
    ensures loading ==> r == "…"
    ensures !loading && list.None? ==> r == "0"
    ensures !loading && list.Some? ==> r == IntToString(|list.value|)
  {
    if loading then "…" else IntToString(if list.Some? then |list.value| else 0)
  }
}
