/**
 * `parse_url`: the URL argument is handed to the URL parser of the `url` crate and, if that
 * parser accepts it, returned unchanged (the parsed value is dropped). The URL grammar is not
 * modelled: the parser is the parameter `accepts`.
 */
module Urls {
  import opened Wrappers

  /**
   * A necessary condition on any parser that follows the URL parsing of the WHATWG URL Standard
   * with no base URL: without a ':' no scheme can be found and parsing fails.
   */
  ghost predicate NeedsScheme(accepts: string -> bool)
  {
    forall s :: accepts(s) ==> ':' in s
  }

  /** `parse_url`: succeeds exactly when the parser accepts `s`, and then returns `s` itself. */
  function ParseUrl(s: string, accepts: string -> bool): (r: Result<string>)
    ensures r.Ok? <==> accepts(s)
    ensures r.Ok? ==> r.value == s
    ensures r.Err? ==> r.error == InvalidUrl(s)
  {
    if accepts(s) then Ok(s) else Err(InvalidUrl(s))
  }

  /** What `parse_url` returns passes `parse_url` again unchanged, as the request re-parses it. */
  lemma ParseUrlIdempotent(s: string, accepts: string -> bool)
    requires ParseUrl(s, accepts).Ok?
    ensures ParseUrl(ParseUrl(s, accepts).value, accepts) == ParseUrl(s, accepts)
  {
  }

  /** A bare word with no scheme, such as "abc", is refused by every such parser. */
  lemma NoSchemeRejected(s: string, accepts: string -> bool)
    requires NeedsScheme(accepts)
    requires ':' !in s
    ensures ParseUrl(s, accepts) == Err(InvalidUrl(s))
  {
  }

  /**
   * The URL examples: "abc" is refused by every parser that needs a scheme, and that assumption
   * leaves room for a parser accepting the two absolute URLs, which `parse_url` then returns as given.
   */
  lemma UrlExamples(accepts: string -> bool)
    requires NeedsScheme(accepts)
    ensures ParseUrl("abc", accepts) == Err(InvalidUrl("abc"))
    ensures NeedsScheme(s => ':' in s)
    ensures ParseUrl("http://abc.xyz", s => ':' in s) == Ok("http://abc.xyz")
    ensures ParseUrl("https://httpbin.org/post", s => ':' in s) == Ok("https://httpbin.org/post")
  {
    NoSchemeRejected("abc", accepts);
    assert "http://abc.xyz"[4] == ':';
    assert "https://httpbin.org/post"[5] == ':';
  }
}
