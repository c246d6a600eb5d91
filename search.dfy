/**
 * The search box of the course and exam grids: the term is the trimmed,
 * lower-cased input, and a text field matches when its lower-cased value
 * (a missing one read as "") contains the term.
 */
module Search {
  import opened Wrappers
  import opened Text
  import opened JsValues

  /** `search.trim().toLowerCase()`: empty exactly when the input is blank. */
  function SearchTerm(search: string): (r: string)
    ensures r == "" <==> IsBlank(JavaScriptTrim, search)
    ensures |r| <= |search|
  {
    TrimEmptyIffBlank(JavaScriptTrim, search);
    Lower(Trim(JavaScriptTrim, search))
  }

  /** `(field || "").toLowerCase().includes(term)` */
  predicate Mentions(field: Option<string>, term: string) {
    Contains(Lower(OrElse(field, "")), term)
  }

  /** A missing field and an empty one match only the empty term. */
  lemma MissingFieldMatchesNothing(term: string)
    requires term != ""
    ensures !Mentions(None, term) && !Mentions(Some(""), term)
  {
    assert Lower("") == "";
    forall i | 0 <= i <= 0
      ensures !(term <= ""[i..])
    {
    }
  }
}
