# httpie (Rust) — a Dafny model of argument validation, form building and body rendering

The program is a small command-line HTTP client with four subcommands (`get`, `post`, `put`,
`delete`). This model covers what it decides before and after the network call.

- **Key-value arguments** (`key_values.dfy`, module `KeyValues`). `KeyValue::from_str` splits an
  argument at its first `=` (`splitn(2, '=')`). It refuses an argument with no `=`. Nothing is
  trimmed, the value may be empty, and the value may contain further `=`.
- **URL arguments** (`urls.dfy`, module `Urls`). `parse_url` asks the `url` crate's parser and
  returns the argument unchanged. The parser is a parameter `accepts: string -> bool`. The only
  thing assumed about it is a necessary condition of the WHATWG URL Standard's URL parsing
  (section 4.4) with no base URL: an accepted string contains a `:` that ends its scheme.
- **Form body** (`forms.dfy`, module `Forms`). `post` and `put` insert the pairs, in order, into a
  `HashMap`. `BuildForm` is that loop. `FormOf` is the fold it computes. The lemmas show the
  form's keys are those of the body and each key holds the value of its last pair.
- **Body rendering** (`render.dfy`, module `Render`). `print_body` picks a strategy from the
  parsed media type: JSON is highlighted with hint `json`, `text/plain` with hint `html`, and
  everything else (or no type) is printed raw.
- **Dispatch** (`cli.dfy`, module `Cli`). The subcommands, the default headers, and the match in
  `main`. `Run` maps a subcommand to the request it sends, and no subcommand to the notice.
  `ValidCommand` states what clap guarantees before `main` runs: each URL passed `parse_url`.
- `wrappers.dfy` (module `Wrappers`) holds `Option`, `Result` and the validation errors.

## Model

| member | source | states |
|---|---|---|
| `KeyValues.FindFirst` | src/main.rs:67 | the index found holds the separator and none occurs before it; none is found exactly when the separator does not occur |
| `KeyValues.SplitOnce` | src/main.rs:67 | `splitn(2, sep)` gives one part (the whole string) exactly when `sep` is absent, else two parts joined by `sep` to the input, the first free of `sep` |
| `KeyValues.FromStr` | src/main.rs:66-75 | fails exactly when the argument has no `=`, with an error naming it; on success `key + "=" + value` is the argument and the key holds no `=` |
| `KeyValues.ParseFormat` | src/main.rs:66-75 | writing a pair as `key=value` and parsing it gives the pair back exactly when the key holds no `=` |
| `KeyValues.ParseSplit` | src/main.rs:67-74 | for any split `k=v` of the argument with `k` free of `=`, the parse is `(k, v)`: the split is at the first `=` |
| `KeyValues.FindFirstAfterPrefix` | src/main.rs:67 | in `k + [c] + v` with `c` not in `k`, the first `c` is at index `|k|` |
| `KeyValues.ParseExamples` | src/main.rs:202-217 | `"a"` is refused, `"a=1"` gives `("a","1")`, `"b="` gives `("b","")`, `"a=b=c"` gives `("a","b=c")` |
| `Urls.ParseUrl` | src/main.rs:79-82 | succeeds exactly when the URL parser accepts the argument, then returns it unchanged; otherwise the error names the argument |
| `Urls.ParseUrlIdempotent` | src/main.rs:79-82 | the returned string passes `parse_url` again with the same result |
| `Urls.NoSchemeRejected` | src/main.rs:80 | a string without `:` is refused by every parser that needs a scheme |
| `Urls.UrlExamples` | src/main.rs:196-200 | `"abc"` is refused by every parser that needs a scheme; a parser meeting that condition can accept `"http://abc.xyz"` and `"https://httpbin.org/post"`, which `parse_url` then returns unchanged |
| `Forms.FormOfInsert` | src/main.rs:96-98 | one insertion adds its key with its value and leaves every other entry unchanged |
| `Forms.FormOfKeys` | src/main.rs:95-98 | the form's key set is exactly the set of keys in the body |
| `Forms.FormOfLastWins` | src/main.rs:95-98 | every key maps to the value of its last occurrence in the body |
| `Forms.FormOfSize` | src/main.rs:95-98 | the form has at most as many entries as the body has pairs |
| `Forms.FormExamples` | src/main.rs:95-98 | an empty body gives an empty form; `[a=1, a=2]` gives `{a: "2"}` |
| `Forms.BuildForm` | src/main.rs:95-98 | the loop (the same loop is at lines 104-107) yields the fold `FormOf`, whose keys are the body's keys and whose size is at most the number of pairs; `FormOfLastWins` gives each key's value |
| `Render.PrintBody` | src/main.rs:129-134 | the body text is kept unchanged; it is highlighted exactly for `application/json` (hint `json`) and `text/plain` (hint `html`), and printed raw otherwise or with no type |
| `Render.HighlightHints` | src/main.rs:131-132 | the highlighter is only ever asked for `json` or `html` |
| `Render.RenderExamples` | src/main.rs:129-134 | JSON and plain text are highlighted; no type, `text/html` and JSON with a parameter are raw |
| `Cli.ParseBody` | src/main.rs:39-40 | the body arguments parse exactly when each holds `=`, giving one pair per argument in order; otherwise the error names the first argument without `=` |
| `Cli.RunExamples` | src/main.rs:182-188 | `post https://httpbin.org/post a=1 a=2` sends one POST with the default headers and the form `{a: "2"}`; no subcommand gives the notice |
| `Cli.Run` | src/main.rs:182-188 | no subcommand gives the notice and no request; each subcommand sends one request with its verb, its URL and the default headers; only POST and PUT carry a form, equal to `FormOf` of the body |

## Left out

- Network I/O (`send`, `text`), the async runtime and the client builder: the transport is not
  modelled. `Run` ends with the request that would be sent.
- The URL grammar of the `url` crate. It is the parameter `accepts`. The model only assumes that
  an accepted string contains `:`.
- Form-urlencoded serialisation by `.form`. `HashMap` iteration order is unspecified, so the model
  says nothing about field order on the wire.
- `get_content_type` (MIME parsing and its two `unwrap`s). `PrintBody` takes an already parsed
  media type. The model compares media types as whole values, parameters included. `Mime`
  values are taken in the parser's form, with type and subtype already lower-cased, so a
  header `Application/JSON` arrives as `Mime("application", "json", [])`.
- `print_syntect` and terminal colours. A `BodyView` says which strategy applies to which text.
  Failure to find a syntax for a hint is not modelled.
- `print_status` and `print_header`. These only format the transport's types. The order
  "status, headers, body" is not modelled.
- clap's mechanics: flag parsing, help text, and errors for extra or missing arguments.
  `ParseBody` models only the value parser applied to each body argument. Which of the URL and
  the body arguments clap checks first is not modelled.
- `Urls.UrlExamples`: acceptance of the two test URLs by the real `url` parser cannot be
  proved over the parameter `accepts`. The lemma shows only that the one assumption allows it.
- `Urls.ParseUrl`: the error carries the argument. The real error is the `url` crate's
  `ParseError`, which clap reports together with the argument.
