/**
 * The command line and `main`: the four subcommands with their validated arguments, the
 * client's fixed default headers, and the match that turns a subcommand into the request to
 * send (or into the "no method" notice when there is none).
 */
module Cli {
  import opened Wrappers
  import opened KeyValues
  import opened Forms
  import opened Urls

  /**
   * The subcommand `HttpMethod` with its argument structs `Get`, `Post`, `Put`, `Delete`.
   * clap runs every `url` through `parse_url` before `main` sees it: see `ValidCommand`.
   */
  datatype HttpMethod =
    | Get(url: string)
    | Post(url: string, body: seq<KeyValue>)
    | Put(url: string, body: seq<KeyValue>)
    | Delete(url: string)

  /**
   * The `body` arguments of `post` and `put`, each validated by `parse_key_value` in order;
   * the first refused argument is the error.
   */
  function ParseBody(raw: seq<string>): (r: Result<seq<KeyValue>>)
    ensures r.Ok? <==> forall i | 0 <= i < |raw| :: '=' in raw[i]
    ensures r.Ok? ==> |r.value| == |raw| && forall i | 0 <= i < |raw| :: FromStr(raw[i]) == Ok(r.value[i])
    ensures r.Err? ==> exists i | 0 <= i < |raw| ::
      && r.error == InvalidKeyValue(raw[i])
      && '=' !in raw[i]
      && forall j | 0 <= j < i :: '=' in raw[j]
  {
    if raw == [] then Ok([])
    else match FromStr(raw[0])
      case Err(e) => Err(e)
      case Ok(kv) =>
        match ParseBody(raw[1..])
        case Err(e) =>
          ghost var i :| 0 <= i < |raw[1..]| && e == InvalidKeyValue(raw[1..][i]) && '=' !in raw[1..][i]
                         && forall j | 0 <= j < i :: '=' in raw[1..][j];
          assert raw[i + 1] == raw[1..][i];
          assert forall j | 1 <= j < i + 1 :: raw[j] == raw[1..][j - 1];
          Err(e)
        case Ok(rest) =>
          assert forall i | 1 <= i < |raw| :: raw[i] == raw[1..][i - 1];
          Ok([kv] + rest)
  }

  /** What clap guarantees of a subcommand it hands to `main`: its URL passed `parse_url`. */
  ghost predicate ValidCommand(command: HttpMethod, accepts: string -> bool)
  {
    ParseUrl(command.url, accepts) == Ok(command.url)
  }

  datatype Verb = GET | POST | PUT | DELETE

  datatype Header = Header(name: string, value: string)

  /** The default headers the client is built with in `main`, sent with every request. */
  const DefaultHeaders: seq<Header> := [Header("x-power-by", "Rust"), Header("user-agent", "Rust Httpie")]

  /** The notice printed when no subcommand is given. */
  const NoMethodMessage: string := "No HTTP method specified."

  /**
   * A request handed to the transport; `form` is the form body of POST and PUT. `headers` are the
   * client's default headers only: the form content type that `.form` adds is not modelled.
   */
  datatype Request = Request(verb: Verb, url: string, headers: seq<Header>, form: Option<map<string, string>>)

  /** What `main` does: print the notice and send nothing, or send one request. */
  datatype Action = Notice(message: string) | Send(request: Request)

  function VerbOf(command: HttpMethod): (r: Verb)
  {
    match command
    case Get(_) => GET
    case Post(_, _) => POST
    case Put(_, _) => PUT
    case Delete(_) => DELETE
  }

  /**
   * The match in `main` with `get`, `post`, `put` and `delete`: no subcommand gives the notice;
   * otherwise one request with the subcommand's verb and URL and the default headers; POST and
   * PUT alone carry a form, whose keys are those of the body and whose value for each key is the
   * value of its last pair.
   */
  method Run(command: Option<HttpMethod>) returns (action: Action)
    ensures command.None? <==> action == Notice(NoMethodMessage)
    ensures command.Some? ==> action.Send?
    ensures action.Send? ==>
      && command.Some?
      && action.request.verb == VerbOf(command.value)
      && action.request.url == command.value.url
      && action.request.headers == DefaultHeaders
      && (action.request.form.Some? <==> command.value.Post? || command.value.Put?)
    ensures action.Send? && action.request.form.Some? ==>
      && action.request.form.value == FormOf(command.value.body)
      && action.request.form.value.Keys == KeysOf(command.value.body)
      && forall i | 0 <= i < |command.value.body| && IsLast(command.value.body, i) ::
           action.request.form.value[command.value.body[i].key] == command.value.body[i].value
  {
    match command
    case None =>
      action := Notice(NoMethodMessage);
    case Some(Get(url)) =>
      action := Send(Request(GET, url, DefaultHeaders, None));
    case Some(Post(url, body)) =>
      var form := BuildForm(body);
      forall i | 0 <= i < |body| && IsLast(body, i) ensures form[body[i].key] == body[i].value {
        FormOfLastWins(body, i);
      }
      action := Send(Request(POST, url, DefaultHeaders, Some(form)));
    case Some(Put(url, body)) =>
      var form := BuildForm(body);
      forall i | 0 <= i < |body| && IsLast(body, i) ensures form[body[i].key] == body[i].value {
        FormOfLastWins(body, i);
      }
      action := Send(Request(PUT, url, DefaultHeaders, Some(form)));
    case Some(Delete(url)) =>
      action := Send(Request(DELETE, url, DefaultHeaders, None));
  }

  /**
   * The examples: `post https://httpbin.org/post a=1 a=2` sends the form `{a: "2"}`, and giving no
   * subcommand prints the notice and sends nothing.
   */
  method RunExamples() returns (post: Action, none: Action)
    ensures post == Send(Request(POST, "https://httpbin.org/post", DefaultHeaders, Some(map["a" := "2"])))
    ensures none == Notice(NoMethodMessage)
  {
    post := Run(Some(Post("https://httpbin.org/post", [KeyValue("a", "1"), KeyValue("a", "2")])));
    FormExamples();
    none := Run(None);
  }
}
