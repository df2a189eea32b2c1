/**
 * `print_body`: the rendering of a response body is chosen from its (already parsed) media
 * type. JSON is highlighted as JSON, `text/plain` is highlighted as HTML, and anything else,
 * or no content type, is printed as it is. The highlighter and the terminal are not modelled:
 * the result says which strategy is applied to which text.
 */
module Render {
  import opened Wrappers

  /** A media type as the `mime` crate parses it: type, subtype and parameters. */
  datatype Mime = Mime(kind: string, subtype: string, params: seq<(string, string)>)

  /** `mime::APPLICATION_JSON` and `mime::TEXT_PLAIN`: no parameters. */
  const ApplicationJson: Mime := Mime("application", "json", [])
  const TextPlain: Mime := Mime("text", "plain", [])

  /** What is done with the body text: highlighted under a syntax hint, or printed raw. */
  datatype BodyView = Highlighted(text: string, hint: string) | Raw(text: string)

  /**
   * `print_body`. The body text is never altered; it is highlighted exactly when the type is one
   * of the two constants, with hint "json" for JSON and "html" for plain text.
   */
  function PrintBody(m: Option<Mime>, body: string): (r: BodyView)
    ensures r.text == body
    ensures r.Highlighted? <==> m == Some(ApplicationJson) || m == Some(TextPlain)
    ensures r.Highlighted? ==> (r.hint == "json" <==> m == Some(ApplicationJson))
    ensures r.Highlighted? ==> (r.hint == "html" <==> m == Some(TextPlain))
  {
    match m
    case Some(t) =>
      if t == ApplicationJson then Highlighted(body, "json")
      else if t == TextPlain then Highlighted(body, "html")
      else Raw(body)
    case None => Raw(body)
  }

  /** The hint handed to the highlighter is always one of its two known extensions. */
  lemma HighlightHints(m: Option<Mime>, body: string)
    ensures PrintBody(m, body).Highlighted? ==> PrintBody(m, body).hint in {"json", "html"}
  {
  }

  /**
   * Types are compared whole: JSON with a parameter, or `text/html`, is printed raw like a
   * response without a content type.
   */
  lemma RenderExamples(body: string)
    ensures PrintBody(Some(ApplicationJson), body) == Highlighted(body, "json")
    ensures PrintBody(Some(TextPlain), body) == Highlighted(body, "html")
    ensures PrintBody(None, body) == Raw(body)
    ensures PrintBody(Some(Mime("application", "json", [("charset", "utf-8")])), body) == Raw(body)
    ensures PrintBody(Some(Mime("text", "html", [])), body) == Raw(body)
  {
  }
}
