# dev-cli publish, modelled in Dafny

dev-cli publishes a Markdown file to the dev.to API. It reads the file and
splits off its front matter. It takes one front-matter field as the
article's approximate key and looks the key up in the listing of the user's
articles. It then updates the first article whose field matches, or creates
a new article when none does.

The model has five modules, one file each:

- `Errors` (errors.dfy): the `Option` and `Result` wrappers. Every exception
  the publish path can raise is one `Error` variant.
- `Values` (values.dfy): the dynamically typed front-matter and JSON values.
  It holds Python's `==` between them (`True == 1`) and Python's `str()` of
  them.
- `Parser` (parser.dfy, for src/dev_cli/parser.py): reading the file under a
  size cap, and `get_key`.
- `Api` (api.dfy, for src/dev_cli/api.py): the `DevApi` client. The
  paginated listing, the lazy first-match search, and the create and update
  requests.
- `Cli` (cli.dfy, for src/dev_cli/`__main__.py`): `validate_key`, the
  `publish` flow and the `main` dispatch.

The remote service is a `Server` value. Its `page` function gives the JSON
array answered for each listing URL and page number. Its `status` function
gives the status answered to each create or update. Every request the client
sends is appended to the ghost trace `DevApi.sent`. So the contracts can say
which requests are sent, in which order, and when none is.

The listing and the search each have a declarative definition:

- `Listing` is pages 1 to k-1 concatenated, where k is the first empty page,
  and never more than 999 pages.
- `FindIn` is the search over it: the first article the search stops at.
- `PagesFetched` is the number of pages the lazy search requests.

The imperative loops of `get_my_articles` and `find_article` are proved
against these functions.

`DevParser` is a datatype, not a class. Its four fields are set once, while
the file is read, and nothing updates them afterwards. The step-by-step read
of `__init__` is the method `Parser.Open`. It is proved equal to the
declarative `Parser.Load`. Because a Dafny constructor cannot fail, `Open`
returns a `Result`.

The model follows what the code does where it departs from what its
annotations and messages suggest:

- `DevKey.value` is annotated `Text`, but the key value is used as the front
  matter holds it, a date or a number included. It is not turned into text
  (parser.py:49, api.py:81). The search compares with Python's `==`.
- The API key is checked after the file is parsed and its key extracted, not
  first (`__main__.py`:73-82). A missing credential is reported only for a
  file that reads and has the key.
- A create or update fails only on a status from 400 to 599, which is what
  `raise_for_status` checks. Other non-2xx answers, such as 3xx, count as
  success.
- A date or datetime title parses from the front matter, but the JSON encoder
  rejects it, so the create fails before any request is sent.
- An article that lacks the key's field raises a KeyError during the search
  (api.py:81). It is not skipped. The search stops there, with
  `MissingField`.
- Reaching page 999 ends the listing silently, without an error (api.py:67).

## Model

| member | source | states |
|---|---|---|
| Values.ParseIntToString | src/dev_cli/api.py:110 | `str()` of an integer id reads back as that id, so distinct ids give distinct URL paths |
| Parser.DevParser.GetKey | src/dev_cli/parser.py:38-49 | Ok exactly when the key name is in the front matter. The key pairs the name with the front-matter value unchanged. Otherwise the error names the key |
| Parser.Read | src/dev_cli/parser.py:29-31 | `f.read(n)` gives `min(n, remaining)` characters, exactly those that follow the position |
| Parser.Load | src/dev_cli/parser.py:24-36 | Ok exactly when the file decodes, holds at most `maxFileSize` characters and its front matter parses. The content is then the whole file, never cut short. An IOError names the path. More than `maxFileSize` characters gives TooBig, even when bytes that are not UTF-8 follow them. Bad bytes within the cap give the decode error |
| Parser.Open | src/dev_cli/parser.py:24-36 | Reading `maxFileSize` characters and then one more, where a read that reaches bytes that are not UTF-8 fails, gives exactly `Load`'s result |
| Api.Url | src/dev_cli/api.py:24-30 | The URL is the base URL, one slash, then the path, with nothing else |
| Api.FirstEmpty | src/dev_cli/api.py:58-71 | The first empty page from `i` on lies between `i` and 1000. Below 1000 it is empty |
| Api.BeforeFirstEmpty | src/dev_cli/api.py:58-71 | Every page before the first empty one holds articles |
| Api.GetsUpToInOrder | src/dev_cli/api.py:57-69 | The n page requests ask for pages 1, 2, ..., n in that order, from the same URL with the same key |
| Api.ListingRequestsInOrder | src/dev_cli/api.py:57-71 | A full listing sends between 1 and 999 requests, the j-th for page j |
| Api.ListingStopsAtFirstEmpty | src/dev_cli/api.py:58-71 | When page k is the first empty page, the listing is pages 1 to k-1 and exactly pages 1 to k are requested |
| Api.ListingAtCap | src/dev_cli/api.py:67-71 | When no page up to 999 is empty, the listing is exactly pages 1 to 999, with exactly those requests and no error |
| Api.ThreePages | src/dev_cli/api.py:57-71 | Pages [a, b], [c], [] give the listing a, b, c after exactly three requests, for pages 1, 2, 3 |
| Api.StopIndex | src/dev_cli/api.py:80-82 | The search's stopping position is within the list, and an article there stops it (a match or a KeyError) |
| Api.StopIndexIsFirst | src/dev_cli/api.py:80-82 | Every article before the stopping position has the field and does not match |
| Api.NoStopIsFullIndex | src/dev_cli/api.py:80-82 | The search runs to the end of a list exactly when it stops at none of its articles |
| Api.StopIndexAppend | src/dev_cli/api.py:67-69 | Over two pages in a row, the search stops in the first when it can, and otherwise at the first page's length plus its position in the second |
| Api.FindIn | src/dev_cli/api.py:80-82 | Searching a listing fails only with a KeyError on the key's field |
| Api.FindInIsFirstMatch | src/dev_cli/api.py:80-82 | A found article matches the key, and every article before it has the field and differs. Nothing is found exactly when every article has the field and differs. A KeyError comes from an article, before any match, that lacks the field |
| Api.PagesFetched | src/dev_cli/api.py:67-82 | The lazy search requests at least the page it starts from and at most page 999 |
| Api.FetchedLastPage | src/dev_cli/api.py:67-82 | The last page the search requests before the cap is empty or holds the article it stops at |
| Api.FetchedWithinListing | src/dev_cli/api.py:67-82 | The lazy search requests no page that the full listing would not request |
| Api.StopIsOnLastFetchedPage | src/dev_cli/api.py:67-82 | When the search stops at an article, that article is on the last page requested. No page after the one holding the first match is fetched |
| Api.FoundOnPage | src/dev_cli/api.py:67-82 | Stopping on page i after passing pages 1 to i-1 gives the listing's search result, and page i is the last requested |
| Api.NotFound | src/dev_cli/api.py:67-82 | Passing every page up to an empty one, or up to the cap, means nothing is found and exactly those pages were requested |
| Api.FoundArticleIsTruthy | src/dev_cli/__main__.py:85-87 | A found article holds the key's field, so `if article:` is true exactly when something was found |
| Api.UpdateUrlNamesArticle | src/dev_cli/api.py:110 | Two integer ids with the same update URL are the same id |
| Api.DevApi.constructor | src/dev_cli/api.py:16-22 | The client holds the API key and the service, and has sent nothing |
| Api.DevApi.GetPage | src/dev_cli/api.py:57-62 | One GET for the page is appended to the trace, and the page's articles come back in server order |
| Api.DevApi.GetMyArticles | src/dev_cli/api.py:32-71 | An unknown publication fails before any request. Otherwise the result is the listing, pages in order, and the trace gains exactly the full listing's requests |
| Api.DevApi.FindArticle | src/dev_cli/api.py:73-82 | The result is the first match in the "all" listing, or nothing, or the KeyError. The trace gains requests for exactly pages 1 to `PagesFetched`, in order |
| Api.FirstStop | src/dev_cli/api.py:80-82 | The loop over one page stops at the search's stopping position, and runs to the end exactly when nothing on the page stops it |
| Api.DevApi.CreateArticle | src/dev_cli/api.py:84-103 | Without a title: NoTitle and no request. With a title the JSON encoder rejects: the TypeError and no request. Otherwise exactly one POST to `BASE_URL/articles` of the title and the whole file. The result fails exactly on an error status |
| Api.DevApi.UpdateArticle | src/dev_cli/api.py:105-113 | Exactly one PUT to `BASE_URL/articles/{id}` carrying only the whole file. The result fails exactly on an error status |
| Cli.ValidateKey | src/dev_cli/__main__.py:27-34 | Accepts exactly `cover_image`, `canonical_url` and `title`, returning the name unchanged. Anything else is an InvalidKey naming it |
| Cli.DefaultKeyIsAllowed | src/dev_cli/__main__.py:47-56 | The default key `canonical_url` passes `validate_key`, which argparse also applies to defaults |
| Cli.Publish | src/dev_cli/__main__.py:65-94 | The result and the requests sent are exactly `Publication`'s: parse, get_key, the API-key check, the search, then update or create |
| Cli.UpdateOrCreate | src/dev_cli/__main__.py:85-92 | A found article leads to the update of its `id`, and nothing leads to the create. At most one write request is sent |
| Cli.Run | src/dev_cli/__main__.py:97-107 | Any action other than publish gives the help path and no request. An invalid key is an argument error with no request. Otherwise the outcome is `Publication`'s |
| Cli.PublicationRequests | src/dev_cli/__main__.py:73-92 | Any request implies that the file parsed, the key was found and the API key is set. Every request carries that API key. All but the last are GETs of the "all" listing for pages 1, 2, ... |
| Cli.ErrorsBeforeRequests | src/dev_cli/__main__.py:73-82 | Errors come in step order with no request: reading the file, then the key, then the API key |
| Cli.UpdatesFoundArticle | src/dev_cli/__main__.py:85-89 | When the search finds an article with an id, the last request is the PUT of the file to that id and every other request is a GET. The result is Updated exactly on a non-error status. The article's key field equals the file's |
| Cli.CreatesWhenNotFound | src/dev_cli/__main__.py:90-92 | When nothing is found and there is a JSON-encodable title, the last request is the POST of the title and the file, and every other request is a GET. The result is Created exactly on a non-error status |
| Cli.RefusedCreateSendsOnlyReads | src/dev_cli/__main__.py:90-92 | When nothing is found and there is no title, or one the JSON encoder rejects, the result is that refusal and only GETs were sent |

## Left out

- The HTTP client: `httpx.Client`, the `Api-Key` header, `r.json()` and response bodies. They are network I/O, so the service is the `Server` parameter. A GET's status is not checked by the source, and the model has none.
- Api.DevApi.CreateArticle, Api.DevApi.UpdateArticle, Api.DevApi.GetPage: transport failures are not modelled. The `Server` answers every request. A connection error, timeout or undecodable JSON body would end `publish` after only some of its requests, and the model cannot express that.
- The status range of `raise_for_status` is that of httpx versions that fail on 4xx and 5xx only. Newer httpx versions also fail on 1xx and 3xx.
- `frontmatter.parse`: the YAML library is not shown, so it is the `parse` parameter. It gives a metadata map and the Markdown, or fails.
- Opening and decoding the file: operating-system I/O. The file arrives as a `File`: its decoded text, an IOError cause, or the text decoded before the first bytes that are not UTF-8. Newline translation is assumed done.
- Parser.Open: the text decoder reads ahead in chunks of bytes. So bad bytes shortly after the first `maxFileSize + 1` characters can raise the decode error where the model gives TooBig. The model decides by characters, not by chunks.
- The value of `MAX_FILE_SIZE`: the `constants` module is not part of this model, so it is the `maxFileSize` parameter.
- argparse itself: usage text, `print_help`, the exit codes and the rejection of unknown subcommands. `Cli.Run` takes the parsed action and raw key, and the exits are the `Exit` datatype.
- `getenv` and `load_dotenv`: the environment variable arrives as the `env` parameter.
- Logging, and the top-level handlers at `__main__.py`:110-123. They only report: DevCliError, KeyboardInterrupt, SystemExit (swallowed) and anything else.
- Floats, dates, lists and nested dictionaries are `Opaque` values, compared by a canonical text and flagged by whether the JSON encoder accepts them. Python's `1 == 1.0` across int and float is therefore not modelled.
- `get_my_articles` as a generator: `GetMyArticles` consumes it to the end. The laziness that `find_article` relies on is modelled inside `FindArticle`, whose requests stop at the page holding the match.
- Parser.DevParser.GetKey: it is a function of the parsed value, so "only reads parser state" holds by construction rather than being stated.
