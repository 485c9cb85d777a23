/**
  The command line (src/dev_cli/__main__.py): the accepted key fields, the
  publish flow that decides between creating and updating an article, and the
  dispatch on the chosen action.

  The environment variable holding the API key arrives as `env` (what
  `getenv` returns), the file and the front-matter library as in `Parser`,
  and the remote service as in `Api`.
 */
module Cli {
  import opened Errors
  import opened Values
  import opened Parser
  import opened Api

  /** The front-matter fields that may serve as the article's key. */
  const AllowedKeys: set<string> := {"cover_image", "canonical_url", "title"}

  /** The key field when `-k` is not given. */
  const DefaultKey: string := "canonical_url"

  /** `validate_key`: the key name itself when allowed, a ValueError otherwise. */
  function ValidateKey(key: string): (r: Result<string>)
    ensures r.Ok? <==> key == "cover_image" || key == "canonical_url" || key == "title"
    ensures r.Ok? ==> r.value == key
    ensures r.Err? ==> r.error == InvalidKey(key)
  {
    if key !in AllowedKeys then Err(InvalidKey(key)) else Ok(key)
  }

  /** `if not api_key`: an unset or empty variable holds no API key. */
  predicate HasApiKey(env: Option<string>)
  {
    env.Some? && env.value != ""
  }

  /** What a successful publish did to the remote service. */
  datatype Action = Created | Updated(articleId: Value)

  /** The outcome of a create or update request, as the action it stands for. */
  function Outcome(answer: Result<()>, action: Action): Result<Action>
  {
    if answer.Err? then Err(answer.error) else Ok(action)
  }

  /** What `publish` does once the search has answered `found`: the result
      and the write requests it sends, at most one. */
  function AfterSearch(parser: DevParser, apiKey: string, server: Server,
                       found: Result<Option<Article>>): (Result<Action>, seq<Request>)
  {
    match found
    case Err(e) => (Err(e), [])
    case Ok(None) =>
      if "title" !in parser.frontMatter then (Err(NoTitle), [])
      else if !JsonEncodable(parser.frontMatter["title"]) then (Err(TitleNotJsonEncodable), [])
      else
        var req := CreateRequest(parser, apiKey);
        (Outcome(Answer(server, req), Created), [req])
    case Ok(Some(article)) =>
      if "id" !in article then (Err(MissingField("id")), [])
      else
        var req := UpdateRequest(parser, article["id"], apiKey);
        (Outcome(Answer(server, req), Updated(article["id"])), [req])
  }

  /** What `publish` does, stated without the steps: its result and every
      request it sends, in order. */
  function Publication(path: string, keyName: string, file: File, maxFileSize: nat,
                       parse: string -> FrontMatter, env: Option<string>, server: Server): (Result<Action>, seq<Request>)
  {
    match Load(path, file, maxFileSize, parse)
    case Err(e) => (Err(e), [])
    case Ok(parser) =>
      match parser.GetKey(keyName)
      case Err(e) => (Err(e), [])
      case Ok(key) =>
        if !HasApiKey(env) then (Err(NoApiKey), [])
        else
          var url := ListingUrl("all");
          var gets := GetsUpTo(url, env.value, PagesFetched(server, url, key, 1));
          var after := AfterSearch(parser, env.value, server, FindIn(Listing(server, url), key));
          (after.0, gets + after.1)
  }

  /** `publish(args)`: parse the file, take its key, check the API key, then
      update the article the search finds or create a new one. */
  method Publish(path: string, keyName: string, file: File, maxFileSize: nat,
                 parse: string -> FrontMatter, env: Option<string>, server: Server)
    returns (r: Result<Action>, ghost sent: seq<Request>)
    ensures r == Publication(path, keyName, file, maxFileSize, parse, env, server).0
    ensures sent == Publication(path, keyName, file, maxFileSize, parse, env, server).1
  {
    var parser := Open(path, file, maxFileSize, parse);
    if parser.Err? {
      return Err(parser.error), [];
    }
    var key := parser.value.GetKey(keyName);
    if key.Err? {
      return Err(key.error), [];
    }
    if !(env.Some? && env.value != "") {
      return Err(NoApiKey), [];
    }
    var api := new DevApi(env.value, server);
    var article := api.FindArticle(key.value);
    ghost var url := ListingUrl("all");
    assert article == FindIn(Listing(server, url), key.value);
    assert api.sent == GetsUpTo(url, env.value, PagesFetched(server, url, key.value, 1));
    if article.Ok? && article.value.Some? {
      FoundArticleIsTruthy(Listing(server, url), key.value);
    }
    r := UpdateOrCreate(api, parser.value, article);
    sent := api.sent;
  }

  /** The end of `publish`: `if article:`, then the update or the create. */
  method UpdateOrCreate(api: DevApi, parser: DevParser, article: Result<Option<Article>>) returns (r: Result<Action>)
    requires article.Ok? && article.value.Some? ==> article.value.value != map[]
    modifies api
    ensures var after := AfterSearch(parser, api.apiKey, api.server, article);
      r == after.0 && api.sent == old(api.sent) + after.1
  {
    if article.Err? {
      return Err(article.error);
    }
    var found := article.value;
    // Python's truthiness of an optional dictionary
    if found.Some? && found.value != map[] {
      if "id" !in found.value {
        return Err(MissingField("id"));
      }
      var articleId := found.value["id"];
      var answer := api.UpdateArticle(parser, articleId);
      r := if answer.Err? then Err(answer.error) else Ok(Updated(articleId));
    } else {
      var answer := api.CreateArticle(parser);
      r := if answer.Err? then Err(answer.error) else Ok(Created);
    }
  }

  /** How the command ends. */
  datatype Exit =
    | Finished(result: Result<Action>)   // publish ran, to success or to an exception
    | UsageHelp                          // the help text, then exit(1)
    | BadArgument(error: Error)          // argparse rejects the arguments, exit(2)

  /** `main`: publish when that is the action, show the help otherwise. The
      key is validated while the arguments are parsed, the default included. */
  method Run(action: Option<string>, path: string, rawKey: Option<string>, file: File, maxFileSize: nat,
             parse: string -> FrontMatter, env: Option<string>, server: Server)
    returns (e: Exit, ghost sent: seq<Request>)
    ensures action != Some("publish") ==> e == UsageHelp
    ensures action == Some("publish") ==>
      var key := ValidateKey(rawKey.GetOr(DefaultKey));
      if key.Err? then e == BadArgument(key.error)
      else e == Finished(Publication(path, key.value, file, maxFileSize, parse, env, server).0)
    ensures action != Some("publish") ==> sent == []
    ensures action == Some("publish") ==>
      var key := ValidateKey(rawKey.GetOr(DefaultKey));
      if key.Err? then sent == []
      else sent == Publication(path, key.value, file, maxFileSize, parse, env, server).1
  {
    if action != Some("publish") {
      return UsageHelp, [];
    }
    var key := ValidateKey(rawKey.GetOr(DefaultKey));
    if key.Err? {
      return BadArgument(key.error), [];
    }
    var result;
    result, sent := Publish(path, key.value, file, maxFileSize, parse, env, server);
    e := Finished(result);
  }

  /** The default key field is one of the allowed ones. */
  lemma DefaultKeyIsAllowed()
    ensures ValidateKey(DefaultKey) == Ok("canonical_url")
  {
  }

  /** Every request of a publish carries the API key from the environment,
      so none is sent before the file is parsed, its key taken and the API
      key found; all but the last are page requests of the "all" listing,
      in page order. */
  lemma {:induction false} PublicationRequests(path: string, keyName: string, file: File, maxFileSize: nat,
                                               parse: string -> FrontMatter, env: Option<string>, server: Server)
    ensures var (r, sent) := Publication(path, keyName, file, maxFileSize, parse, env, server);
      var loaded := Load(path, file, maxFileSize, parse);
      && (sent != [] ==> loaded.Ok? && keyName in loaded.value.frontMatter && HasApiKey(env))
      && (forall i :: 0 <= i < |sent| ==> env == Some(sent[i].apiKey))
      && (forall i :: 0 <= i < |sent| - 1 ==> sent[i] == Get(ListingUrl("all"), i + 1, env.value))
  {
    var loaded := Load(path, file, maxFileSize, parse);
    if loaded.Ok? && keyName in loaded.value.frontMatter && HasApiKey(env) {
      var parser := loaded.value;
      var key := DevKey(keyName, parser.frontMatter[keyName]);
      var url := ListingUrl("all");
      var n := PagesFetched(server, url, key, 1);
      GetsUpToInOrder(url, env.value, n);
    }
  }

  /** The errors of the local steps come in the order the steps run, each
      before any request: reading the file, then the key, then the API key. */
  lemma ErrorsBeforeRequests(path: string, keyName: string, file: File, maxFileSize: nat,
                             parse: string -> FrontMatter, env: Option<string>, server: Server)
    ensures var (r, sent) := Publication(path, keyName, file, maxFileSize, parse, env, server);
      var loaded := Load(path, file, maxFileSize, parse);
      && (loaded.Err? ==> r == Err(loaded.error) && sent == [])
      && (loaded.Ok? && keyName !in loaded.value.frontMatter ==> r == Err(KeyNotInFrontMatter(keyName)) && sent == [])
      && (loaded.Ok? && keyName in loaded.value.frontMatter && !HasApiKey(env) ==> r == Err(NoApiKey) && sent == [])
  {
  }

  /** When the search finds an article with an id, publish sends exactly one
      write after the page requests: a PUT of the whole file to that article,
      whose key field equals the file's; nothing is created. */
  lemma UpdatesFoundArticle(path: string, keyName: string, file: File, maxFileSize: nat,
                            parse: string -> FrontMatter, env: Option<string>, server: Server, article: Article)
    requires Load(path, file, maxFileSize, parse).Ok? && HasApiKey(env)
    requires var fm := Load(path, file, maxFileSize, parse).value.frontMatter;
      && keyName in fm
      && FindIn(Listing(server, ListingUrl("all")), DevKey(keyName, fm[keyName])) == Ok(Some(article))
    requires "id" in article
    ensures var (r, sent) := Publication(path, keyName, file, maxFileSize, parse, env, server);
      && |sent| >= 1
      && sent[|sent| - 1] == Put(Url("articles/" + Format(article["id"])),
                                 map["body_markdown" := Str(file.chars)], env.value)
      && (forall i :: 0 <= i < |sent| - 1 ==> sent[i].Get?)
      && (r.Ok? <==> !IsErrorStatus(server.status(sent[|sent| - 1])))
      && (r.Ok? ==> r.value == Updated(article["id"]))
    ensures var fm := Load(path, file, maxFileSize, parse).value.frontMatter;
      keyName in article && PyEq(article[keyName], fm[keyName])
  {
    var fm := Load(path, file, maxFileSize, parse).value.frontMatter;
    PublicationRequests(path, keyName, file, maxFileSize, parse, env, server);
    var listing := Listing(server, ListingUrl("all"));
    FindInIsFirstMatch(listing, DevKey(keyName, fm[keyName]));
  }

  /** When the search finds nothing and the front matter has a title, publish
      sends exactly one write after the page requests: a POST of the title and
      the whole file; nothing is updated. */
  lemma CreatesWhenNotFound(path: string, keyName: string, file: File, maxFileSize: nat,
                            parse: string -> FrontMatter, env: Option<string>, server: Server)
    requires Load(path, file, maxFileSize, parse).Ok? && HasApiKey(env)
    requires var fm := Load(path, file, maxFileSize, parse).value.frontMatter;
      && keyName in fm && "title" in fm && JsonEncodable(fm["title"])
      && FindIn(Listing(server, ListingUrl("all")), DevKey(keyName, fm[keyName])) == Ok(None)
    ensures var (r, sent) := Publication(path, keyName, file, maxFileSize, parse, env, server);
      var fm := Load(path, file, maxFileSize, parse).value.frontMatter;
      && |sent| >= 1
      && sent[|sent| - 1] == Post(Url("articles"),
                                  map["title" := fm["title"], "body_markdown" := Str(file.chars)], env.value)
      && (forall i :: 0 <= i < |sent| - 1 ==> sent[i].Get?)
      && (r.Ok? <==> !IsErrorStatus(server.status(sent[|sent| - 1])))
      && (r.Ok? ==> r.value == Created)
  {
    PublicationRequests(path, keyName, file, maxFileSize, parse, env, server);
  }

  /** Without a match, and without a title or with one the JSON encoder
      rejects, publish ends with the create refusal and sends nothing but the
      page requests. */
  lemma RefusedCreateSendsOnlyReads(path: string, keyName: string, file: File, maxFileSize: nat,
                                    parse: string -> FrontMatter, env: Option<string>, server: Server)
    requires Load(path, file, maxFileSize, parse).Ok? && HasApiKey(env)
    requires var fm := Load(path, file, maxFileSize, parse).value.frontMatter;
      && keyName in fm && ("title" !in fm || !JsonEncodable(fm["title"]))
      && FindIn(Listing(server, ListingUrl("all")), DevKey(keyName, fm[keyName])) == Ok(None)
    ensures var (r, sent) := Publication(path, keyName, file, maxFileSize, parse, env, server);
      var fm := Load(path, file, maxFileSize, parse).value.frontMatter;
      && r == Err(if "title" !in fm then NoTitle else TitleNotJsonEncodable)
      && forall i :: 0 <= i < |sent| ==> sent[i].Get?
  {
    var fm := Load(path, file, maxFileSize, parse).value.frontMatter;
    var key := DevKey(keyName, fm[keyName]);
    var url := ListingUrl("all");
    GetsUpToInOrder(url, env.value, PagesFetched(server, url, key, 1));
  }
}
