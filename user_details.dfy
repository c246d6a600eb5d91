/**
 * The user details dialog: the header text derived from a record key, the
 * generic table of a student's exam registrations and course enrollments
 * (columns from the first row's keys, id-like columns hidden), which person
 * the dialog shows, and the loading of the two lists.
 */
module UserDetails {
  import opened Wrappers
  import opened Text
  import opened Seqs

  predicate IsUpper(c: char) {
    'A' <= c <= 'Z'
  }

  /** The text one character of the key becomes. */
  function Piece(c: char): (r: string)
    ensures 1 <= |r| <= 2
  {
    if c == '_' then " " else if IsUpper(c) then [' ', c] else [c]
  }

  /**
   * `replace(/_/g, " ")` followed by `replace(/([A-Z])/g, " $1")`: every
   * underscore becomes a space and every capital letter gets a space in front.
   */
  function Spaced(key: string): (r: string)
    ensures |r| >= |key|
  {
    if |key| == 0 then "" else Piece(key[0]) + Spaced(key[1..])
  }

  /** Spacing works character by character, so it distributes over concatenation. */
  lemma {:induction false} SpacedAppend(a: string, b: string)
    ensures Spaced(a + b) == Spaced(a) + Spaced(b)
  {
    if |a| == 0 {
      assert a + b == b;
    } else {
      assert (a + b)[1..] == a[1..] + b;
      SpacedAppend(a[1..], b);
    }
  }

  /** A key of lower-case letters and other non-marks is left as it is. */
  lemma {:induction false} SpacedPlain(key: string)
    requires forall i :: 0 <= i < |key| ==> key[i] != '_' && !IsUpper(key[i])
    ensures Spaced(key) == key
  {
    if |key| > 0 {
      SpacedPlain(key[1..]);
    }
  }

  /** Spacing leaves no underscore. */
  lemma {:induction false} SpacedNoUnderscore(key: string)
    ensures '_' !in Spaced(key)
  {
    if |key| > 0 {
      SpacedNoUnderscore(key[1..]);
      var piece := Piece(key[0]);
      assert '_' !in piece;
      assert Spaced(key) == piece + Spaced(key[1..]);
    }
  }

  /** `charAt(0).toUpperCase() + slice(1)`. */
  function Capitalize(s: string): (r: string)
    ensures |r| == |s|
    ensures |s| > 0 ==> r[0] == UpperChar(s[0]) && r[1..] == s[1..]
  {
    if s == "" then "" else [UpperChar(s[0])] + s[1..]
  }

  /** `formatHeader`: "" for an empty key; otherwise the spaced key, capitalised. */
  function FormatHeader(key: string): (r: string)
    ensures r == "" <==> key == ""
    ensures |r| >= |key|
  {
    if key == "" then "" else Capitalize(Spaced(key))
  }

  /** A header has no underscore left. */
  lemma HeaderNoUnderscore(key: string)
    ensures '_' !in FormatHeader(key)
  {
    if key != "" {
      var spaced := Spaced(key);
      SpacedNoUnderscore(key);
      assert UpperChar(spaced[0]) != '_';
      assert FormatHeader(key) == [UpperChar(spaced[0])] + spaced[1..];
    }
  }

  /** No underscore and no capital letter. */
  predicate Plain(word: string) {
    forall i :: 0 <= i < |word| ==> word[i] != '_' && !IsUpper(word[i])
  }

  /** Capitalising touches only the first character. */
  lemma CapitalizeAppend(a: string, x: string)
    requires |a| > 0
    ensures Capitalize(a + x) == [UpperChar(a[0])] + a[1..] + x
  {
    assert (a + x)[0] == a[0];
    assert (a + x)[1..] == a[1..] + x;
  }

  /** The header of a spaced key that starts with a plain word. */
  lemma HeaderOfPlainStart(a: string, rest: string)
    requires |a| > 0 && Plain(a)
    ensures FormatHeader(a + rest) == [UpperChar(a[0])] + a[1..] + Spaced(rest)
  {
    SpacedAppend(a, rest);
    SpacedPlain(a);
    assert a + rest != "";
    assert Spaced(a + rest) == a + Spaced(rest);
    CapitalizeAppend(a, Spaced(rest));
  }

  /**
   * Camel case: two plain words joined by a capital letter become two words
   * separated by a space, the first one capitalised.
   */
  lemma CamelCaseHeader(a: string, c: char, b: string)
    requires |a| > 0 && Plain(a) && Plain(b) && IsUpper(c)
    ensures FormatHeader(a + [c] + b) == [UpperChar(a[0])] + a[1..] + " " + [c] + b
  {
    assert a + [c] + b == a + ([c] + b);
    HeaderOfPlainStart(a, [c] + b);
    SpacedAppend([c], b);
    SpacedPlain(b);
    assert Spaced([c]) == [' ', c] by {
      assert [c][1..] == [];
    }
  }

  /**
   * Snake case: only the first word is capitalised, so `course_code` becomes
   * "Course code", not the "Course Code" the function's doc comment promises.
   */
  lemma SnakeCaseHeader(a: string, b: string)
    requires |a| > 0 && Plain(a) && Plain(b)
    ensures FormatHeader(a + ['_'] + b) == [UpperChar(a[0])] + a[1..] + [' '] + b
  {
    var tail := ['_'] + b;
    assert a + ['_'] + b == a + tail;
    assert Spaced(tail) == [' '] + b by {
      assert tail[0] == '_' && tail[1..] == b;
      SpacedPlain(b);
    }
    HeaderOfPlainStart(a, tail);
  }

  /** The course code column's header. */
  lemma CourseCodeHeader()
    ensures FormatHeader("course_code") == "Course code"
  {
    assert Plain("course") && Plain("code");
    SnakeCaseHeader("course", "code");
    assert "course" + ['_'] + "code" == "course_code";
    assert [UpperChar('c')] + "ourse" + [' '] + "code" == "Course code";
  }

  /** The exam name column's header. */
  lemma ExamNameHeader()
    ensures FormatHeader("examName") == "Exam Name"
  {
    assert Plain("exam") && Plain("ame");
    CamelCaseHeader("exam", 'N', "ame");
    assert "exam" + ['N'] + "ame" == "examName";
    assert [UpperChar('e')] + "xam" + " " + ['N'] + "ame" == "Exam Name";
  }

  /** A key that starts with a capital letter yields a header that starts with a space. */
  lemma LeadingCapitalLeadingSpace(key: string)
    requires |key| > 0 && IsUpper(key[0])
    ensures FormatHeader(key)[0] == ' ' && FormatHeader(key)[1] == key[0]
  {
    assert Spaced(key) == [' ', key[0]] + Spaced(key[1..]);
  }

  /** The lower-cased column name contains "id". */
  predicate IdLike(col: string) {
    Contains(Lower(col), "id")
  }

  /**
   * The visible columns: the keys of the first row, in order, without those
   * whose lower-cased name contains "id".
   */
  function Columns(keys: seq<string>): (r: seq<string>)
    ensures forall i :: 0 <= i < |r| ==> r[i] in keys && !IdLike(r[i])
    ensures forall i :: 0 <= i < |keys| && !IdLike(keys[i]) ==> keys[i] in r
    ensures IsSubsequence(r, keys)
  {
    FilterIsSubsequence(keys, (col: string) => !IdLike(col));
    Filter(keys, (col: string) => !IdLike(col))
  }

  /** The id test is on letters, not on words: a column named `valid` is hidden too. */
  lemma NonIdColumnHidden()
    ensures IdLike("studentId") && IdLike("valid") && !IdLike("major")
  {
    assert Lower("studentId") == "studentid";
    assert "id" <= Lower("studentId")[7..];
    assert Lower("valid") == "valid";
    assert "id" <= Lower("valid")[3..];
    assert Lower("major") == "major";
    forall i | 0 <= i <= 5
      ensures !("id" <= "major"[i..])
    {
      if i < 5 {
        assert "major"[i] != 'i';
      }
    }
  }

  /**
   * A row as the page receives it: its keys in insertion order, and for each
   * key its value's `String` form or nothing for null and undefined.
   */
  datatype Row = Row(keys: seq<string>, values: map<string, Option<string>>)

  /** A cell: `String(row[col])`, or "" for a null or missing value. */
  function CellText(row: Row, col: string): (r: string)
    ensures col !in row.values || row.values[col].None? ==> r == ""
    ensures col in row.values && row.values[col].Some? ==> r == row.values[col].value
  {
    if col in row.values && row.values[col].Some? then row.values[col].value else ""
  }

  /** What a mini table renders. */
  datatype TableView =
    | NoData(title: string)
    | NoVisibleFields(title: string)
    | Table(title: string, headers: seq<string>, cells: seq<seq<string>>)

  /**
   * `GenericMiniTable`: "No data." without rows; "No visible fields to
   * display." when every column of the first row is id-like; otherwise one
   * header per visible column and one line of cells per row.
   */
  function MiniTable(title: string, data: Option<seq<Row>>): (r: TableView)
    ensures data.None? || data.value == [] ==> r == NoData(title)
    ensures data.Some? && data.value != [] && Columns(data.value[0].keys) == [] ==> r == NoVisibleFields(title)
    ensures r.Table? ==>
              var columns := Columns(data.value[0].keys);
              && data.Some? && |r.headers| == |columns| > 0 && |r.cells| == |data.value|
              && (forall j :: 0 <= j < |columns| ==> r.headers[j] == FormatHeader(columns[j]))
              && (forall i :: 0 <= i < |r.cells| ==>
                    |r.cells[i]| == |columns|
                    && forall j :: 0 <= j < |columns| ==> r.cells[i][j] == CellText(data.value[i], columns[j]))
  {
    if data.None? || |data.value| == 0 then NoData(title)
    else
      var rows := data.value;
      var columns := Columns(rows[0].keys);
      if |columns| == 0 then NoVisibleFields(title)
      else
        Table(title, seq(|columns|, j requires 0 <= j < |columns| => FormatHeader(columns[j])),
              seq(|rows|, i requires 0 <= i < |rows| =>
                seq(|columns|, j requires 0 <= j < |columns| => CellText(rows[i], columns[j]))))
  }

  /** Which person the dialog shows. */
  datatype Mode = StudentMode | UserMode | NoneSelected

  /** A student, when given, wins; a user is shown only without a student. */
  function ModeOf<U, S>(user: Option<U>, student: Option<S>): (r: Mode)
    ensures r == StudentMode <==> student.Some?
    ensures r == UserMode <==> user.Some? && student.None?
    ensures r == NoneSelected <==> user.None? && student.None?
  {
    if student.Some? then StudentMode else if user.Some? then UserMode else NoneSelected
  }

  class Dialog {
    var examRegistrations: seq<Row>
    var courseEnrollments: seq<Row>
    var loadingRelations: bool

    constructor()
      ensures examRegistrations == [] && courseEnrollments == [] && !loadingRelations
    {
      examRegistrations, courseEnrollments, loadingRelations := [], [], false;
    }

    /**
     * The relations effect. A closed dialog, or one without a student, clears
     * both lists. Otherwise the two lists are requested together: when both
     * answer, each is stored (a falsy answer as []); when either throws,
     * neither list changes. Loading ends either way.
     */
    method LoadRelations(open: bool, studentId: Option<int>, exams: Result<Option<seq<Row>>>,
                         courses: Result<Option<seq<Row>>>)
      modifies this
      ensures !loadingRelations
      ensures !open || studentId.None? ==> examRegistrations == [] && courseEnrollments == []
      ensures open && studentId.Some? && exams.Success? && courses.Success? ==>
                examRegistrations == exams.value.GetOr([]) && courseEnrollments == courses.value.GetOr([])
      ensures open && studentId.Some? && (exams.Failure? || courses.Failure?) ==>
                examRegistrations == old(examRegistrations) && courseEnrollments == old(courseEnrollments)
    {
      if !open || studentId.None? {
        examRegistrations, courseEnrollments := [], [];
        loadingRelations := false;
        return;
      }
      loadingRelations := true;
      if exams.Success? && courses.Success? {
        examRegistrations := exams.value.GetOr([]);
        courseEnrollments := courses.value.GetOr([]);
      }
      loadingRelations := false;
    }
  }
}
