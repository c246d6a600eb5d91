/**
 * String operations of the Java and JavaScript standard libraries that the
 * modelled code relies on: trimming, blank checks, case mapping, substring
 * search, joining and splitting, and decimal printing and parsing of integers.
 */
module Text {
  import opened Wrappers

  /**
   * The three notions of white space the code relies on: what JavaScript's
   * `trim` removes (white space and line terminators of ECMA-262, section
   * 12.2 and 12.3), what Java's `String.trim` removes (every character up to
   * U+0020; Hibernate Validator's `@NotBlank` trims the same way), and what
   * Java's `String.isBlank` skips (`Character.isWhitespace`).
   */
  datatype Whitespace = JavaScriptTrim | JavaTrim | JavaIsWhitespace

  /** The Unicode space separators (category Zs). */
  predicate IsSpaceSeparator(c: char) {
    c == ' ' || c == '\U{00A0}' || c == '\U{1680}' || '\U{2000}' <= c <= '\U{200A}'
    || c == '\U{202F}' || c == '\U{205F}' || c == '\U{3000}'
  }

  predicate IsWhitespace(w: Whitespace, c: char) {
    match w
    case JavaScriptTrim =>
      c == '\t' || c == '\U{000B}' || c == '\U{000C}' || c == '\U{FEFF}' || IsSpaceSeparator(c)
      || c == '\n' || c == '\r' || c == '\U{2028}' || c == '\U{2029}'
    case JavaTrim => c <= ' '
    case JavaIsWhitespace =>
      ('\t' <= c <= '\r') || ('\U{001C}' <= c <= '\U{001F}') || c == '\U{2028}' || c == '\U{2029}'
      || (IsSpaceSeparator(c) && c != '\U{00A0}' && c != '\U{2007}' && c != '\U{202F}')
  }

  /** Empty or white space only: JavaScript `s.trim() === ""`, Java `isBlank` or `@NotBlank` failing. */
  predicate IsBlank(w: Whitespace, s: string) {
    forall i :: 0 <= i < |s| ==> IsWhitespace(w, s[i])
  }

  /** Neither end of `s` is white space. */
  predicate IsTrimmed(w: Whitespace, s: string) {
    s == [] || (!IsWhitespace(w, s[0]) && !IsWhitespace(w, s[|s| - 1]))
  }

  function TrimStart(w: Whitespace, s: string): (r: string)
    ensures |r| <= |s| && r == s[|s| - |r|..]
    ensures forall i :: 0 <= i < |s| - |r| ==> IsWhitespace(w, s[i])
    ensures r == [] || !IsWhitespace(w, r[0])
  {
    if |s| > 0 && IsWhitespace(w, s[0]) then TrimStart(w, s[1..]) else s
  }

  function TrimEnd(w: Whitespace, s: string): (r: string)
    ensures |r| <= |s| && r == s[..|r|]
    ensures forall i :: |r| <= i < |s| ==> IsWhitespace(w, s[i])
    ensures r == [] || !IsWhitespace(w, r[|r| - 1])
  {
    if |s| > 0 && IsWhitespace(w, s[|s| - 1]) then TrimEnd(w, s[..|s| - 1]) else s
  }

  /** Java `String.trim` (`JavaTrim`) / JavaScript `String.prototype.trim` (`JavaScriptTrim`). */
  function Trim(w: Whitespace, s: string): (r: string)
    ensures IsTrimmed(w, r)
    ensures |r| <= |s|
  {
    var t := TrimStart(w, s);
    var r := TrimEnd(w, t);
    assert r == [] || r[0] == t[0];
    r
  }

  lemma TrimEmptyIffBlank(w: Whitespace, s: string)
    ensures Trim(w, s) == "" <==> IsBlank(w, s)
  {
    var t := TrimStart(w, s);
    if Trim(w, s) == "" {
      assert t == [];
    }
  }

  lemma TrimOfTrimmed(w: Whitespace, s: string)
    requires IsTrimmed(w, s)
    ensures Trim(w, s) == s
  {
  }

  /** Trimming only removes characters. */
  lemma TrimKeepsAbsent(w: Whitespace, s: string, c: char)
    requires c !in s
    ensures c !in Trim(w, s)
  {
    var t := TrimStart(w, s);
    assert t == s[|s| - |t|..];
    assert TrimEnd(w, t) == t[..|TrimEnd(w, t)|];
  }

  /** Trimming removes white space put in front of a trimmed string. */
  lemma TrimDropsLeadingSpace(w: Whitespace, s: string)
    requires IsTrimmed(w, s)
    ensures Trim(w, " " + s) == s
  {
    assert IsWhitespace(w, ' ');
    assert (" " + s)[1..] == s;
  }

  /**
   * The three notions differ: a no-break space is blank to JavaScript but
   * survives Java's `trim`, and a unit separator (U+001F) is blank to both
   * Java notions but not to JavaScript.
   */
  lemma WhitespaceNotionsDiffer()
    ensures IsBlank(JavaScriptTrim, "\U{00A0}") && !IsBlank(JavaTrim, "\U{00A0}")
    ensures !IsBlank(JavaIsWhitespace, "\U{00A0}")
    ensures IsBlank(JavaTrim, "\U{001F}") && IsBlank(JavaIsWhitespace, "\U{001F}")
    ensures !IsBlank(JavaScriptTrim, "\U{001F}")
    ensures IsBlank(JavaTrim, "\U{0000}") && !IsBlank(JavaIsWhitespace, "\U{0000}")
  {
    assert "\U{00A0}"[0] == '\U{00A0}' && "\U{001F}"[0] == '\U{001F}' && "\U{0000}"[0] == '\U{0000}';
  }

  /**
   * The length Java's `String.length()` and JavaScript's `length` give: the
   * number of UTF-16 code units, two for each character beyond U+FFFF.
   */
  function Utf16Length(s: string): (n: nat)
    ensures |s| <= n <= 2 * |s|
    ensures n == |s| <==> forall i :: 0 <= i < |s| ==> s[i] <= '\U{FFFF}'
  {
    if s == [] then 0
    else
      var rest := Utf16Length(s[1..]);
      assert forall i :: 1 <= i < |s| ==> s[i] == s[1..][i - 1];
      (if s[0] <= '\U{FFFF}' then 1 else 2) + rest
  }

  /** A character beyond U+FFFF counts twice, so 16 emoji have length 32. */
  lemma SupplementaryCountsTwice(s: string)
    requires forall i :: 0 <= i < |s| ==> s[i] > '\U{FFFF}'
    ensures Utf16Length(s) == 2 * |s|
  {
    if s != [] {
      assert forall i :: 0 <= i < |s[1..]| ==> s[1..][i] == s[i + 1];
      SupplementaryCountsTwice(s[1..]);
    }
  }

  function LowerChar(c: char): char {
    if 'A' <= c <= 'Z' then (c as int + 32) as char else c
  }

  function UpperChar(c: char): char {
    if 'a' <= c <= 'z' then (c as int - 32) as char else c
  }

  /** `toLowerCase` on ASCII letters. */
  function Lower(s: string): (r: string)
    ensures |r| == |s|
  {
    seq(|s|, i requires 0 <= i < |s| => LowerChar(s[i]))
  }

  /** `s.includes(t)` / `s.contains(t)`. */
  predicate Contains(s: string, t: string) {
    exists i :: 0 <= i <= |s| && t <= s[i..]
  }

  /** `parts.join(sep)` / `String.join(sep, parts)`. */
  function Join(parts: seq<string>, sep: string): string {
    if |parts| == 0 then ""
    else if |parts| == 1 then parts[0]
    else parts[0] + sep + Join(parts[1..], sep)
  }

  /** `s.split(c)` for a one-character separator, keeping empty pieces. */
  function Split(s: string, c: char): (r: seq<string>)
    ensures |r| >= 1
    ensures forall i :: 0 <= i < |r| ==> c !in r[i]
  {
    if |s| == 0 then [""]
    else
      var rest := Split(s[1..], c);
      if s[0] == c then [""] + rest else [[s[0]] + rest[0]] + rest[1..]
  }

  lemma {:induction false} SplitWithoutSeparator(a: string, c: char)
    requires c !in a
    ensures Split(a, c) == [a]
  {
    if |a| > 0 {
      SplitWithoutSeparator(a[1..], c);
      assert [a[0]] + a[1..] == a;
    }
  }

  /** Splitting at the first separator yields the text before it, then the split of the rest. */
  lemma {:induction false} SplitAtFirstSeparator(a: string, c: char, b: string)
    requires c !in a
    ensures Split(a + [c] + b, c) == [a] + Split(b, c)
  {
    if |a| == 0 {
      assert a + [c] + b == [c] + b;
      assert ([c] + b)[1..] == b;
    } else {
      SplitAtFirstSeparator(a[1..], c, b);
      assert (a + [c] + b)[1..] == a[1..] + [c] + b;
      assert [a[0]] + a[1..] == a;
    }
  }

  predicate IsDigit(c: char) {
    '0' <= c <= '9'
  }

  predicate AllDigits(s: string) {
    |s| > 0 && forall i :: 0 <= i < |s| ==> IsDigit(s[i])
  }

  function DigitChar(d: int): (c: char)
    requires 0 <= d < 10
    ensures IsDigit(c)
  {
    ('0' as int + d) as char
  }

  function DigitValue(c: char): int
    requires IsDigit(c)
  {
    c as int - '0' as int
  }

  /** Decimal digits of a natural number, without leading zeros. */
  function NatToString(n: nat): (r: string)
    ensures AllDigits(r)
    decreases n
  {
    if n < 10 then [DigitChar(n)] else NatToString(n / 10) + [DigitChar(n % 10)]
  }

  /** Java string concatenation of a `long` (and `String.valueOf`); JavaScript `${n}` for an integer. */
  function IntToString(n: int): string {
    if n < 0 then "-" + NatToString(-n) else NatToString(n)
  }

  function ParseDigits(s: string): nat
    requires AllDigits(s)
  {
    if |s| == 1 then DigitValue(s[0])
    else ParseDigits(s[..|s| - 1]) * 10 + DigitValue(s[|s| - 1])
  }

  /**
   * `Long.parseLong` on the strings it meets here: an optional minus sign and
   * decimal digits. Java also accepts a leading plus sign and rejects values
   * outside 64 bits; neither case arises for the keys built from printed ids,
   * so both are left out.
   */
  function ParseLong(s: string): Option<int> {
    if |s| > 1 && s[0] == '-' && AllDigits(s[1..]) then Some(-(ParseDigits(s[1..]) as int))
    else if AllDigits(s) then Some(ParseDigits(s))
    else None
  }

  lemma {:induction false} ParseNatToString(n: nat)
    ensures ParseDigits(NatToString(n)) == n
    decreases n
  {
    if n >= 10 {
      ParseNatToString(n / 10);
      var s := NatToString(n);
      assert s[..|s| - 1] == NatToString(n / 10);
    }
  }

  /** Printing an integer and parsing it back gives the integer. */
  lemma ParseIntToString(n: int)
    ensures ParseLong(IntToString(n)) == Some(n)
  {
    if n < 0 {
      ParseNatToString(-n);
      assert IntToString(n)[1..] == NatToString(-n);
    } else {
      ParseNatToString(n);
    }
  }

  lemma IntToStringHasNoSeparator(n: int, c: char)
    requires c != '-' && !IsDigit(c)
    ensures c !in IntToString(n)
  {
  }
}
