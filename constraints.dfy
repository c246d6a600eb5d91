/**
 * The Jakarta Bean Validation constraints used on the request records. Each
 * constraint other than the null checks accepts a null value; a record's
 * violations are the set of messages of the constraints it breaks (the order
 * in which a validator reports them is unspecified).
 */
module Constraints {
  import opened Wrappers
  import opened Text

  /** `@NotBlank`: not null and not white space only. */
  predicate NotBlank(s: Option<string>) {
    s.Some? && !IsBlank(JavaTrim, s.value)
  }

  /** `@NotNull` */
  predicate NotNull<T>(v: Option<T>) {
    v.Some?
  }

  /** `@Size(max = n)` on a string, which measures `String.length()`. */
  predicate SizeAtMost(s: Option<string>, n: int) {
    s.None? || Utf16Length(s.value) <= n
  }

  /** `@Size(min = lo, max = hi)` on a string. */
  predicate SizeBetween(s: Option<string>, lo: int, hi: int) {
    s.None? || lo <= Utf16Length(s.value) <= hi
  }

  /** `@Min(n)` */
  predicate AtLeast(v: Option<int>, n: int) {
    v.None? || v.value >= n
  }

  /** `@Max(n)` */
  predicate AtMost(v: Option<int>, n: int) {
    v.None? || v.value <= n
  }

  /** The message of a constraint, when it is broken. */
  function Check(ok: bool, message: string): (r: set<string>)
    ensures r == {} <==> ok
    ensures !ok ==> message in r
  {
    if ok then {} else {message}
  }
}
