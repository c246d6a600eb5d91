/**
 * JavaScript values as the front end inspects them: truthiness, `a || b`,
 * optional property access and the "array, else one of two wrapper fields,
 * else empty" normalisation of responses.
 */
module JsValues {
  import opened Wrappers

  /** A response value whose array items have type T. */
  datatype Value<T> =
    | Undefined
    | Null
    | Scalar(truthy: bool)
    | List(items: seq<T>)
    | Record(fields: map<string, Value<T>>)

  predicate Truthy<T>(v: Value<T>) {
    match v
    case Undefined => false
    case Null => false
    case Scalar(t) => t
    case List(_) => true
    case Record(_) => true
  }

  /** `v?.key` (properties of non-records are not modelled). */
  function Field<T>(v: Value<T>, key: string): Value<T> {
    if v.Record? && key in v.fields then v.fields[key] else Undefined
  }

  /** `a || b` */
  function Or<T>(a: Value<T>, b: Value<T>): (r: Value<T>)
    ensures Truthy(a) ==> r == a
    ensures !Truthy(a) ==> r == b
  {
    if Truthy(a) then a else b
  }

  /**
   * `Array.isArray(v) ? v : Array.isArray(v?.first) ? v.first
   *   : Array.isArray(v?.second) ? v.second : []`
   */
  function ArrayOrWrapped<T>(v: Value<T>, first: string, second: string): (r: seq<T>)
    ensures v.List? ==> r == v.items
    ensures !v.List? && Field(v, first).List? ==> r == Field(v, first).items
    ensures !v.List? && !Field(v, first).List? && Field(v, second).List? ==> r == Field(v, second).items
    ensures !v.List? && !Field(v, first).List? && !Field(v, second).List? ==> r == []
  {
    if v.List? then v.items
    else if Field(v, first).List? then Field(v, first).items
    else if Field(v, second).List? then Field(v, second).items
    else []
  }

  /** A string-valued property is truthy when present and non-empty. */
  predicate Present(s: Option<string>) {
    s.Some? && s.value != ""
  }

  /** `s || d` for a string-valued property. */
  function OrElse(s: Option<string>, d: string): string {
    if Present(s) then s.value else d
  }

  /**
   * A user record as the front end receives it. Every property may be missing;
   * the role is the enum name as a string.
   */
  datatype UserRecord = UserRecord(
    id: Option<int>,
    fullName: Option<string>,
    firstName: Option<string>,
    lastName: Option<string>,
    email: Option<string>,
    userRole: Option<string>)
}
