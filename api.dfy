/**
  The remote side of publishing (src/dev_cli/api.py): the paginated listing of
  the user's articles, the first-match search over it, and the create and
  update requests.

  The HTTP client and the service behind it are a `Server`: the JSON array it
  answers for each listing URL and page, and the status it answers to each
  create or update. Every request the client sends is appended to the ghost
  trace `DevApi.sent`, so that "no request", "exactly one request" and the
  order of requests can be stated.
 */
module Api {
  import opened Errors
  import opened Values
  import opened Parser

  const BaseUrl: string := "https://dev.to/api"

  /** The publication filters `get_my_articles` accepts. */
  const Publications: set<string> := {"published", "unpublished", "all"}

  /** `range(1, 1000)`: the last page the listing ever asks for. */
  const PageCap: int := 999

  /** `DevApi.url`: the base URL and the path, joined by one slash. */
  function Url(path: string): (u: string)
    ensures |u| == |BaseUrl| + 1 + |path|
    ensures u[..|BaseUrl|] == BaseUrl && u[|BaseUrl|] == '/'
    ensures u[|BaseUrl| + 1..] == path
  {
    BaseUrl + "/" + path
  }

  /** The listing endpoint for a publication filter. */
  function ListingUrl(publication: string): string
  {
    Url("articles/me/" + publication)
  }

  datatype Request =
    | Get(url: string, page: int, apiKey: string)
    | Post(url: string, json: map<string, Value>, apiKey: string)
    | Put(url: string, json: map<string, Value>, apiKey: string)

  /** The remote service as the client sees it. */
  datatype Server = Server(
    page: (string, int) -> seq<Article>,   // the JSON array answered to GET url?page=n
    status: Request -> int)                // the status answered to a create or update

  /** httpx's `raise_for_status` fails on client and server errors. */
  predicate IsErrorStatus(status: int)
  {
    400 <= status < 600
  }

  /** The first page from `i` on that comes back empty, or 1000 when pages
      `i` to 999 all hold articles. */
  function FirstEmpty(server: Server, url: string, i: int): (k: int)
    requires 1 <= i <= PageCap + 1
    ensures i <= k <= PageCap + 1
    ensures k <= PageCap ==> server.page(url, k) == []
    decreases PageCap + 1 - i
  {
    if i == PageCap + 1 then i
    else if server.page(url, i) == [] then i
    else FirstEmpty(server, url, i + 1)
  }

  /** No page before the first empty one is empty. */
  lemma {:induction false} BeforeFirstEmpty(server: Server, url: string, i: int, j: int)
    requires 1 <= i <= PageCap + 1
    ensures i <= j < FirstEmpty(server, url, i) ==> server.page(url, j) != []
    decreases PageCap + 1 - i
  {
    if i <= PageCap && server.page(url, i) != [] && i < j {
      BeforeFirstEmpty(server, url, i + 1, j);
    }
  }

  /** Pages 1 to n, concatenated in page order. */
  function Pages(server: Server, url: string, n: nat): seq<Article>
  {
    if n == 0 then [] else Pages(server, url, n - 1) + server.page(url, n)
  }

  /** Everything `get_my_articles` yields for a URL: the pages before the first
      empty one, and never more than 999 pages. */
  function Listing(server: Server, url: string): seq<Article>
  {
    Pages(server, url, FirstEmpty(server, url, 1) - 1)
  }

  /** The requests for pages 1 to n. */
  function GetsUpTo(url: string, apiKey: string, n: nat): seq<Request>
  {
    if n == 0 then [] else GetsUpTo(url, apiKey, n - 1) + [Get(url, n, apiKey)]
  }

  /** One more page passed by the search. */
  lemma PassesOneMore(server: Server, url: string, key: DevKey, i: int)
    requires forall j :: 1 <= j < i ==> PassesPage(server, url, key, j)
    requires server.page(url, i) != [] && NoStop(server.page(url, i), key)
    ensures forall j :: 1 <= j < i + 1 ==> PassesPage(server, url, key, j)
  {
  }

  /** One more page request. */
  lemma RequestOneMore(before: seq<Request>, url: string, apiKey: string, i: nat)
    requires i >= 1
    ensures before + GetsUpTo(url, apiKey, i - 1) + [Get(url, i, apiKey)] == before + GetsUpTo(url, apiKey, i)
  {
  }

  /** The pages are requested strictly in order: the j-th request asks for
      page j, from the same URL and with the same key. */
  lemma {:induction false} GetsUpToInOrder(url: string, apiKey: string, n: nat)
    ensures |GetsUpTo(url, apiKey, n)| == n
    ensures forall j :: 0 <= j < n ==> GetsUpTo(url, apiKey, n)[j] == Get(url, j + 1, apiKey)
  {
    if n > 0 {
      GetsUpToInOrder(url, apiKey, n - 1);
    }
  }

  /** The requests a full listing sends: every page up to and including the
      first empty one, and at most 999. */
  function ListingRequests(server: Server, url: string, apiKey: string): seq<Request>
  {
    GetsUpTo(url, apiKey, Min(FirstEmpty(server, url, 1), PageCap))
  }

  /** A full listing sends between one and 999 requests, for pages 1, 2, 3, ...
      in that order. */
  lemma ListingRequestsInOrder(server: Server, url: string, apiKey: string)
    ensures var reqs := ListingRequests(server, url, apiKey);
      && 1 <= |reqs| <= PageCap
      && forall j :: 0 <= j < |reqs| ==> reqs[j] == Get(url, j + 1, apiKey)
  {
    GetsUpToInOrder(url, apiKey, Min(FirstEmpty(server, url, 1), PageCap));
  }

  /** Whether the search stops at an article: it either lacks the field
      (a KeyError) or its field equals the key's value. */
  predicate Stops(article: Article, key: DevKey)
  {
    key.name !in article || PyEq(article[key.name], key.value)
  }

  /** The position of the first article the search stops at, or `|arts|`. */
  function StopIndex(arts: seq<Article>, key: DevKey): (i: nat)
    ensures i <= |arts|
    ensures i < |arts| ==> Stops(arts[i], key)
  {
    if arts == [] then 0
    else if Stops(arts[0], key) then 0
    else 1 + StopIndex(arts[1..], key)
  }

  /** The search passes every article before the one it stops at. */
  lemma {:induction false} StopIndexIsFirst(arts: seq<Article>, key: DevKey)
    ensures forall j :: 0 <= j < StopIndex(arts, key) ==> !Stops(arts[j], key)
  {
    if arts != [] && !Stops(arts[0], key) {
      StopIndexIsFirst(arts[1..], key);
      assert forall j :: 1 <= j < StopIndex(arts, key) ==> arts[j] == arts[1..][j - 1];
    }
  }

  /** The search passes every article of `arts`. */
  predicate NoStop(arts: seq<Article>, key: DevKey)
  {
    forall j :: 0 <= j < |arts| ==> !Stops(arts[j], key)
  }

  /** The search passes all of `arts` exactly when it stops at none of them. */
  lemma NoStopIsFullIndex(arts: seq<Article>, key: DevKey)
    ensures NoStop(arts, key) <==> StopIndex(arts, key) == |arts|
  {
    StopIndexIsFirst(arts, key);
  }

  /** `find_article` over a listing: the first article whose field equals the
      key's value, nothing when none does, and a KeyError when an article
      before any match lacks the field. */
  function FindIn(arts: seq<Article>, key: DevKey): (r: Result<Option<Article>>)
    ensures r.Err? ==> r.error == MissingField(key.name)
  {
    var i := StopIndex(arts, key);
    if i == |arts| then Ok(None)
    else if key.name !in arts[i] then Err(MissingField(key.name))
    else Ok(Some(arts[i]))
  }

  /** What `FindIn` finds: the first match with every article before it
      holding a different value, nothing exactly when every article holds a
      different value, and a KeyError on an article before any match that
      lacks the field. */
  lemma FindInIsFirstMatch(arts: seq<Article>, key: DevKey)
    ensures var r := FindIn(arts, key);
      r.Ok? && r.value.Some? ==>
      exists i :: && 0 <= i < |arts| && arts[i] == r.value.value
                  && key.name in arts[i] && PyEq(arts[i][key.name], key.value)
                  && forall j :: 0 <= j < i ==> key.name in arts[j] && !PyEq(arts[j][key.name], key.value)
    ensures FindIn(arts, key) == Ok(None) <==>
      forall j :: 0 <= j < |arts| ==> key.name in arts[j] && !PyEq(arts[j][key.name], key.value)
    ensures var r := FindIn(arts, key);
      r.Err? ==>
      exists i :: && 0 <= i < |arts| && key.name !in arts[i]
                  && forall j :: 0 <= j < i ==> key.name in arts[j] && !PyEq(arts[j][key.name], key.value)
  {
    StopIndexIsFirst(arts, key);
  }

  /** Page j holds articles and the search passes all of them. */
  predicate PassesPage(server: Server, url: string, key: DevKey, j: int)
  {
    server.page(url, j) != [] && NoStop(server.page(url, j), key)
  }

  /** The number of pages the lazy search requests from page `i` on: it stops
      at an empty page, at the page holding the article it stops at, or at
      page 999. */
  function PagesFetched(server: Server, url: string, key: DevKey, i: int): (n: int)
    requires 1 <= i <= PageCap + 1
    ensures i - 1 <= n <= PageCap && (i <= PageCap ==> i <= n)
    decreases PageCap + 1 - i
  {
    if i == PageCap + 1 then PageCap
    else if server.page(url, i) == [] then i
    else if !NoStop(server.page(url, i), key) then i
    else PagesFetched(server, url, key, i + 1)
  }

  /** The search stops requesting at an empty page, at a page it stops on,
      or at page 999. */
  lemma {:induction false} FetchedLastPage(server: Server, url: string, key: DevKey, i: int)
    requires 1 <= i <= PageCap + 1
    ensures var n := PagesFetched(server, url, key, i);
      i <= n < PageCap ==> server.page(url, n) == [] || !NoStop(server.page(url, n), key)
    decreases PageCap + 1 - i
  {
    if i <= PageCap && PassesPage(server, url, key, i) {
      FetchedLastPage(server, url, key, i + 1);
    }
  }

  /** Having passed pages 1 to i-1, the search requests as many pages as it
      requests from page i on. */
  lemma {:induction false} FetchedFromPassed(server: Server, url: string, key: DevKey, i: int)
    requires 1 <= i <= PageCap + 1
    requires forall j :: 1 <= j < i ==> PassesPage(server, url, key, j)
    ensures PagesFetched(server, url, key, 1) == PagesFetched(server, url, key, i)
    decreases i
  {
    if i > 1 {
      assert PassesPage(server, url, key, i - 1);
      FetchedFromPassed(server, url, key, i - 1);
    }
  }

  /** The search passes every page before the last one it requests. */
  lemma {:induction false} PassesBeforeFetched(server: Server, url: string, key: DevKey, i: int, j: int)
    requires 1 <= i <= PageCap + 1
    ensures i <= j < PagesFetched(server, url, key, i) ==> PassesPage(server, url, key, j)
    decreases PageCap + 1 - i
  {
    if i <= PageCap && PassesPage(server, url, key, i) && i < j {
      PassesBeforeFetched(server, url, key, i + 1, j);
    }
  }

  /** The body of a create request: the title and the whole file, front
      matter included. */
  function CreateRequest(parser: DevParser, apiKey: string): Request
    requires "title" in parser.frontMatter
  {
    Post(Url("articles"),
         map["title" := parser.frontMatter["title"], "body_markdown" := Str(parser.fileContent)],
         apiKey)
  }

  /** The update request for an article id: only the whole file as body. */
  function UpdateRequest(parser: DevParser, articleId: Value, apiKey: string): Request
  {
    Put(Url("articles/" + Format(articleId)), map["body_markdown" := Str(parser.fileContent)], apiKey)
  }

  /** `r.raise_for_status()` on the answer to a request. */
  function Answer(server: Server, req: Request): Result<()>
  {
    if IsErrorStatus(server.status(req)) then Err(HttpStatusError(server.status(req))) else Ok(())
  }

  /** Splitting the pages at page n: what comes before and what follows. */
  lemma {:induction false} PagesPrefix(server: Server, url: string, n: nat, m: nat)
    requires n <= m
    ensures |Pages(server, url, n)| <= |Pages(server, url, m)|
    ensures Pages(server, url, m)[..|Pages(server, url, n)|] == Pages(server, url, n)
    decreases m - n
  {
    if n < m {
      PagesPrefix(server, url, n, m - 1);
      var p := Pages(server, url, m - 1);
      assert Pages(server, url, m)[..|p|] == p;
    }
  }

  /** The search over two parts in a row stops in the first part when it can. */
  lemma {:induction false} StopIndexAppend(a: seq<Article>, b: seq<Article>, key: DevKey)
    ensures StopIndex(a + b, key) ==
      if StopIndex(a, key) < |a| then StopIndex(a, key) else |a| + StopIndex(b, key)
    decreases |a|
  {
    if a == [] {
      assert a + b == b;
    } else {
      assert (a + b)[0] == a[0];
      if !Stops(a[0], key) {
        assert (a + b)[1..] == a[1..] + b;
        StopIndexAppend(a[1..], b, key);
      }
    }
  }

  /** The listing stops at the first empty page k: it is pages 1 to k-1,
      and it asks for pages 1 to k and no further. */
  lemma ListingStopsAtFirstEmpty(server: Server, url: string, apiKey: string, k: int)
    requires 1 <= k <= PageCap
    requires server.page(url, k) == []
    requires forall j :: 1 <= j < k ==> server.page(url, j) != []
    ensures Listing(server, url) == Pages(server, url, k - 1)
    ensures ListingRequests(server, url, apiKey) == GetsUpTo(url, apiKey, k)
  {
    var f := FirstEmpty(server, url, 1);
    assert f < k ==> server.page(url, f) != [];
    BeforeFirstEmpty(server, url, 1, k);
  }

  /** When no page up to 999 is empty, the listing is silently cut at page 999:
      exactly those pages, no error. */
  lemma ListingAtCap(server: Server, url: string, apiKey: string)
    requires forall j :: 1 <= j <= PageCap ==> server.page(url, j) != []
    ensures Listing(server, url) == Pages(server, url, PageCap)
    ensures ListingRequests(server, url, apiKey) == GetsUpTo(url, apiKey, PageCap)
  {
    var f := FirstEmpty(server, url, 1);
    assert f <= PageCap ==> server.page(url, f) != [];
  }

  /** Pages [a, b], [c], [] give the listing a, b, c after three requests. */
  lemma ThreePages(server: Server, url: string, apiKey: string, a: Article, b: Article, c: Article)
    requires server.page(url, 1) == [a, b] && server.page(url, 2) == [c] && server.page(url, 3) == []
    ensures Listing(server, url) == [a, b, c]
    ensures ListingRequests(server, url, apiKey) ==
      [Get(url, 1, apiKey), Get(url, 2, apiKey), Get(url, 3, apiKey)]
  {
    ListingStopsAtFirstEmpty(server, url, apiKey, 3);
    GetsUpToInOrder(url, apiKey, 3);
    assert Pages(server, url, 1) == [a, b];
    assert Pages(server, url, 2) == [a, b] + [c];
  }

  /** The lazy search asks for no page the full listing would not ask for. */
  lemma {:induction false} FetchedWithinListing(server: Server, url: string, key: DevKey, i: int)
    requires 1 <= i <= PageCap + 1
    ensures PagesFetched(server, url, key, i) <= Min(FirstEmpty(server, url, i), PageCap)
    decreases PageCap + 1 - i
  {
    if i <= PageCap && PassesPage(server, url, key, i) {
      FetchedWithinListing(server, url, key, i + 1);
    }
  }

  /** The lazy search requests no page past the first empty one, and passes
      every page before the last one it requests. */
  lemma FetchedBeforeFirstEmpty(server: Server, url: string, key: DevKey)
    ensures var n := PagesFetched(server, url, key, 1);
      && 1 <= n <= FirstEmpty(server, url, 1)
      && StopIndex(Pages(server, url, n - 1), key) == |Pages(server, url, n - 1)|
  {
    var n := PagesFetched(server, url, key, 1);
    FetchedWithinListing(server, url, key, 1);
    forall j | 1 <= j < n
      ensures PassesPage(server, url, key, j)
    {
      PassesBeforeFetched(server, url, key, 1, j);
    }
    NoStopBefore(server, url, key, n);
  }

  /** When the listing holds an article the search stops at, the lazy search
      ends on a page before the first empty one, and stops on it. */
  lemma FetchedPageStops(server: Server, url: string, key: DevKey)
    requires StopIndex(Listing(server, url), key) < |Listing(server, url)|
    ensures var n := PagesFetched(server, url, key, 1);
      && 1 <= n < FirstEmpty(server, url, 1)
      && StopIndex(Pages(server, url, n - 1), key) == |Pages(server, url, n - 1)|
      && StopIndex(server.page(url, n), key) < |server.page(url, n)|
  {
    var n := PagesFetched(server, url, key, 1);
    var f := FirstEmpty(server, url, 1);
    FetchedBeforeFirstEmpty(server, url, key);
    FetchedLastPage(server, url, key, 1);
    // page n = f would be empty, and the listing would be just the pages before it
    assert n != f;
    BeforeFirstEmpty(server, url, 1, n);
    // at the cap, the listing is exactly pages 1 to 999
    assert n == PageCap ==> Listing(server, url) == Pages(server, url, n);
    StopsInLastPart(Pages(server, url, n - 1), server.page(url, n), key);
    NoStopIsFullIndex(server.page(url, n), key);
  }

  /** A search that passes all of `before` and stops in `before + part` stops
      in `part`. */
  lemma StopsInLastPart(before: seq<Article>, part: seq<Article>, key: DevKey)
    requires StopIndex(before, key) == |before|
    ensures StopIndex(before + part, key) < |before + part| ==> StopIndex(part, key) < |part|
  {
    StopIndexAppend(before, part, key);
  }

  /** When the search stops at an article, that article is on the last page it
      requested: no page after the one holding the first match is fetched. */
  lemma StopIsOnLastFetchedPage(server: Server, url: string, key: DevKey)
    requires StopIndex(Listing(server, url), key) < |Listing(server, url)|
    ensures var n := PagesFetched(server, url, key, 1);
      1 <= n && |Pages(server, url, n - 1)| <= StopIndex(Listing(server, url), key) < |Pages(server, url, n)|
  {
    var n := PagesFetched(server, url, key, 1);
    FetchedPageStops(server, url, key);
    ListingStartsWithPages(server, url, n);
    StopInMiddlePart(Pages(server, url, n - 1), server.page(url, n), Listing(server, url), key);
  }

  /** Page n before the first empty page: the listing starts with pages 1 to n. */
  lemma ListingStartsWithPages(server: Server, url: string, n: int)
    requires 1 <= n < FirstEmpty(server, url, 1)
    ensures var before := Pages(server, url, n - 1);
      var page := server.page(url, n);
      && Pages(server, url, n) == before + page
      && |before| + |page| <= |Listing(server, url)|
      && Listing(server, url)[..|before| + |page|] == before + page
  {
    PagesPrefix(server, url, n, FirstEmpty(server, url, 1) - 1);
  }

  /** A search that passes all of `before` and stops inside `part` stops in
      `part` of any sequence that starts with `before + part`. */
  lemma StopInMiddlePart(before: seq<Article>, part: seq<Article>, all: seq<Article>, key: DevKey)
    requires StopIndex(before, key) == |before| && StopIndex(part, key) < |part|
    requires |before| + |part| <= |all| && all[..|before| + |part|] == before + part
    ensures |before| <= StopIndex(all, key) < |before| + |part|
  {
    StopIndexAppend(before, part, key);
    StopIndexPrefix(before + part, all, key);
  }

  /** Pages before the one the lazy search stops on hold no stopping article. */
  lemma {:induction false} NoStopBefore(server: Server, url: string, key: DevKey, n: int)
    requires 1 <= n <= PageCap
    requires forall j :: 1 <= j < n ==>
      PassesPage(server, url, key, j)
    ensures StopIndex(Pages(server, url, n - 1), key) == |Pages(server, url, n - 1)|
    decreases n
  {
    if n > 1 {
      assert PassesPage(server, url, key, n - 1);
      NoStopBefore(server, url, key, n - 1);
      StopIndexAppend(Pages(server, url, n - 2), server.page(url, n - 1), key);
    }
  }

  /** A found article has the key's field, so it is never the empty dictionary:
      Python's `if article:` is true exactly when something was found. */
  lemma FoundArticleIsTruthy(arts: seq<Article>, key: DevKey)
    requires FindIn(arts, key).Ok? && FindIn(arts, key).value.Some?
    ensures FindIn(arts, key).value.value != map[]
  {
    var a := FindIn(arts, key).value.value;
    assert key.name in a;
  }

  /** The update URL names the article: distinct integer ids give distinct URLs. */
  lemma UpdateUrlNamesArticle(parser: DevParser, id1: int, id2: int, apiKey: string)
    requires UpdateRequest(parser, Int(id1), apiKey).url == UpdateRequest(parser, Int(id2), apiKey).url
    ensures id1 == id2
  {
    var s1 := IntToString(id1);
    var s2 := IntToString(id2);
    var u1 := Url("articles/" + s1);
    var u2 := Url("articles/" + s2);
    assert u1[|BaseUrl| + 1..] == "articles/" + s1;
    assert u2[|BaseUrl| + 1..] == "articles/" + s2;
    assert ("articles/" + s1)[9..] == s1;
    assert ("articles/" + s2)[9..] == s2;
    assert s1 == s2;
    ParseIntToString(id1);
    ParseIntToString(id2);
  }

  class DevApi {
    const apiKey: string
    /** The HTTP client, bound to the remote service and the `Api-Key` header. */
    const server: Server
    /** Every request the client has sent, oldest first. */
    ghost var sent: seq<Request>

    constructor (apiKey: string, server: Server)
      ensures this.apiKey == apiKey && this.server == server && sent == []
    {
      this.apiKey := apiKey;
      this.server := server;
      sent := [];
    }

    /** `self.client.get(url, params={"page": page}).json()`: one request,
        answered by the server's array for that page. */
    method GetPage(url: string, page: int) returns (articles: seq<Article>)
      modifies this
      ensures articles == server.page(url, page)
      ensures sent == old(sent) + [Get(url, page, apiKey)]
    {
      sent := sent + [Get(url, page, apiKey)];
      articles := server.page(url, page);
    }

    /** Consuming `get_my_articles(publication)` to the end. */
    method GetMyArticles(publication: string) returns (r: Result<seq<Article>>)
      modifies this
      ensures publication !in Publications ==> r == Err(BadPublication(publication)) && sent == old(sent)
      ensures publication in Publications ==>
        var url := ListingUrl(publication);
        r == Ok(Listing(server, url)) && sent == old(sent) + ListingRequests(server, url, apiKey)
    {
      if publication !in {"published", "unpublished", "all"} {
        return Err(BadPublication(publication));
      }
      var url := ListingUrl(publication);
      var articles: seq<Article> := [];
      var i := 1;
      while i < 1000
        invariant 1 <= i <= PageCap + 1
        invariant forall j :: 1 <= j < i ==> server.page(url, j) != []
        invariant articles == Pages(server, url, i - 1)
        invariant sent == old(sent) + GetsUpTo(url, apiKey, i - 1)
      {
        // get_page(i)
        RequestOneMore(old(sent), url, apiKey, i);
        var page := GetPage(url, i);
        var stop := true;
        for k := 0 to |page|
          invariant stop == (k == 0)
          invariant articles == Pages(server, url, i - 1) + page[..k]
        {
          stop := false;
          articles := articles + [page[k]];
        }
        if stop {
          // NoMorePages
          ListingStopsAtFirstEmpty(server, url, apiKey, i);
          return Ok(articles);
        }
        assert page[..|page|] == page;
        i := i + 1;
      }
      ListingAtCap(server, url, apiKey);
      r := Ok(articles);
    }

    /** `find_article(key)`: walks the "all" listing lazily, one page request
        at a time, and leaves at the first article whose field equals the
        key's value. */
    method FindArticle(key: DevKey) returns (r: Result<Option<Article>>)
      modifies this
      ensures var url := ListingUrl("all");
        r == FindIn(Listing(server, url), key)
        && sent == old(sent) + GetsUpTo(url, apiKey, PagesFetched(server, url, key, 1))
    {
      var url := ListingUrl("all");
      var i := 1;
      while i < 1000
        invariant 1 <= i <= PageCap + 1
        invariant forall j :: 1 <= j < i ==> PassesPage(server, url, key, j)
        invariant sent == old(sent) + GetsUpTo(url, apiKey, i - 1)
      {
        // get_page(i), whose articles the search checks in order
        RequestOneMore(old(sent), url, apiKey, i);
        var page := GetPage(url, i);
        var k := FirstStop(page, key);
        if k < |page| {
          FoundOnPage(server, url, key, i);
          var article := page[k];
          r := if key.name !in article then Err(MissingField(key.name)) else Ok(Some(article));
          return;
        }
        if page == [] {
          // NoMorePages: the generator ends
          break;
        }
        PassesOneMore(server, url, key, i);
        i := i + 1;
      }
      // the search found nothing
      NotFound(server, url, key, i);
      r := Ok(None);
    }

    /** `create_article(parser)`. */
    method CreateArticle(parser: DevParser) returns (r: Result<()>)
      modifies this
      ensures "title" !in parser.frontMatter ==> r == Err(NoTitle) && sent == old(sent)
      ensures "title" in parser.frontMatter && !JsonEncodable(parser.frontMatter["title"]) ==>
        r == Err(TitleNotJsonEncodable) && sent == old(sent)
      ensures "title" in parser.frontMatter && JsonEncodable(parser.frontMatter["title"]) ==>
        var req := CreateRequest(parser, apiKey);
        sent == old(sent) + [req] && r == Answer(server, req)
    {
      var url := Url("articles");
      if "title" !in parser.frontMatter {
        return Err(NoTitle);
      }
      if !JsonEncodable(parser.frontMatter["title"]) {
        // httpx fails to encode the body before anything is sent
        return Err(TitleNotJsonEncodable);
      }
      var req := Post(url, map["title" := parser.frontMatter["title"], "body_markdown" := Str(parser.fileContent)], apiKey);
      sent := sent + [req];
      var status := server.status(req);
      if IsErrorStatus(status) {
        return Err(HttpStatusError(status));
      }
      r := Ok(());
    }

    /** `update_article(parser, article_id)`. */
    method UpdateArticle(parser: DevParser, articleId: Value) returns (r: Result<()>)
      modifies this
      ensures var req := UpdateRequest(parser, articleId, apiKey);
        sent == old(sent) + [req] && r == Answer(server, req)
    {
      var url := Url("articles/" + Format(articleId));
      var req := Put(url, map["body_markdown" := Str(parser.fileContent)], apiKey);
      sent := sent + [req];
      var status := server.status(req);
      if IsErrorStatus(status) {
        return Err(HttpStatusError(status));
      }
      r := Ok(());
    }
  }

  /** The loop of `find_article` over the articles of one page: the position of
      the first article that lacks the key's field or whose field equals the
      key's value, or the page's length when there is none. */
  method FirstStop(page: seq<Article>, key: DevKey) returns (k: nat)
    ensures k == StopIndex(page, key)
    ensures k == |page| <==> NoStop(page, key)
  {
    k := 0;
    while k < |page| && !(key.name !in page[k] || PyEq(page[k][key.name], key.value))
      invariant k <= |page|
      invariant forall j :: 0 <= j < k ==> !Stops(page[j], key)
    {
      k := k + 1;
    }
    StopIndexIsFirst(page, key);
  }

  /** The search stops inside a prefix when it stops there at all. */
  lemma StopIndexPrefix(head: seq<Article>, all: seq<Article>, key: DevKey)
    requires |head| <= |all| && all[..|head|] == head
    requires StopIndex(head, key) < |head|
    ensures StopIndex(all, key) == StopIndex(head, key)
  {
    assert all == head + all[|head|..];
    StopIndexAppend(head, all[|head|..], key);
  }

  /** A listing that starts with a part where the search stops is searched
      within that part. */
  lemma FindInPrefix(head: seq<Article>, all: seq<Article>, key: DevKey)
    requires |head| <= |all| && all[..|head|] == head
    requires StopIndex(head, key) < |head|
    ensures StopIndex(all, key) == StopIndex(head, key)
    ensures FindIn(all, key) == FindIn(head, key)
  {
    StopIndexPrefix(head, all, key);
    assert all[StopIndex(head, key)] == head[StopIndex(head, key)];
  }

  /** A listing that starts with a part where the search does not stop is
      searched past that part. */
  lemma FindInAfterPrefix(head: seq<Article>, all: seq<Article>, key: DevKey)
    requires |head| <= |all| && all[..|head|] == head
    requires StopIndex(head, key) == |head|
    ensures StopIndex(all, key) == |head| + StopIndex(all[|head|..], key)
    ensures FindIn(all, key) == FindIn(all[|head|..], key)
  {
    var tail := all[|head|..];
    assert all == head + tail;
    StopIndexAppend(head, tail, key);
    var s := StopIndex(tail, key);
    if s < |tail| {
      assert all[|head| + s] == tail[s];
    }
  }

  /** The search leaves on page i at position k: that is the listing's first
      stopping article, and page i is the last one requested. */
  lemma FoundOnPage(server: Server, url: string, key: DevKey, i: int)
    requires 1 <= i <= PageCap
    requires forall j :: 1 <= j < i ==>
      PassesPage(server, url, key, j)
    requires StopIndex(server.page(url, i), key) < |server.page(url, i)|
    ensures PagesFetched(server, url, key, 1) == i
    ensures var article := server.page(url, i)[StopIndex(server.page(url, i), key)];
      FindIn(Listing(server, url), key) ==
        if key.name !in article then Err(MissingField(key.name)) else Ok(Some(article))
  {
    FoundBeforeFirstEmpty(server, url, key, i);
    NoStopBefore(server, url, key, i);
    ListingStartsWithPages(server, url, i);
    FindInAcrossParts(Pages(server, url, i - 1), server.page(url, i), Listing(server, url), key);
  }

  /** The page the search stops on comes before the first empty page, and it
      is the last page requested. */
  lemma FoundBeforeFirstEmpty(server: Server, url: string, key: DevKey, i: int)
    requires 1 <= i <= PageCap
    requires forall j :: 1 <= j < i ==>
      PassesPage(server, url, key, j)
    requires StopIndex(server.page(url, i), key) < |server.page(url, i)|
    ensures PagesFetched(server, url, key, 1) == i
    ensures i < FirstEmpty(server, url, 1)
  {
    FetchedFromPassed(server, url, key, i);
    PassedPagesHoldArticles(server, url, key, i);
  }

  /** Pages that the search passed, and a non-empty page i after them, all
      come before the first empty page. */
  lemma PassedPagesHoldArticles(server: Server, url: string, key: DevKey, i: int)
    requires 1 <= i <= PageCap
    requires forall j :: 1 <= j < i ==>
      PassesPage(server, url, key, j)
    requires server.page(url, i) != []
    ensures i < FirstEmpty(server, url, 1)
  {
    var f := FirstEmpty(server, url, 1);
    assert f < i ==> PassesPage(server, url, key, f);
  }

  /** A search that passes all of `before` and stops inside `part` finds in
      any sequence starting with `before + part` what it finds in `part`. */
  lemma FindInAcrossParts(before: seq<Article>, part: seq<Article>, all: seq<Article>, key: DevKey)
    requires StopIndex(before, key) == |before| && StopIndex(part, key) < |part|
    requires |before| + |part| <= |all| && all[..|before| + |part|] == before + part
    ensures FindIn(all, key) == FindIn(part, key)
  {
    var head := before + part;
    FindInAfterPrefix(before, head, key);
    assert head[|before|..] == part;
    StopIndexAppend(before, part, key);
    FindInPrefix(head, all, key);
  }

  /** The search reaches page i with nothing found and page i empty (or i is
      past the cap): it finds nothing and requested exactly pages 1 to i. */
  lemma NotFound(server: Server, url: string, key: DevKey, i: int)
    requires 1 <= i <= PageCap + 1
    requires forall j :: 1 <= j < i ==>
      PassesPage(server, url, key, j)
    requires i <= PageCap ==> server.page(url, i) == []
    ensures PagesFetched(server, url, key, 1) == Min(i, PageCap)
    ensures FindIn(Listing(server, url), key) == Ok(None)
  {
    FetchedFromPassed(server, url, key, i);
    var f := FirstEmpty(server, url, 1);
    assert f < i ==> PassesPage(server, url, key, f);
    BeforeFirstEmpty(server, url, 1, i);
    assert f == i || f == PageCap + 1;
    NoStopBefore(server, url, key, Min(i, PageCap));
    if i == PageCap + 1 {
      assert PassesPage(server, url, key, PageCap);
      StopIndexAppend(Pages(server, url, PageCap - 1), server.page(url, PageCap), key);
    }
  }
}
