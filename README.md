# Online library scraper, modelled in Dafny

`main.py` downloads books from tululu.org for a range of book ids. For each
id it requests the text (`txt.php?id=<id>`), checks that the site did not
redirect it (the site redirects to its front page when there is no such
book), requests the book page, parses the title, author, reviews, genres
and cover link from it, saves the text under `books/`, downloads the cover
under `images/`, and prints the title and author. An HTTP error or a
redirect skips the id, a connection error skips it after a 15-second
pause, and any other exception ends the run.

This project models that core as values and one imperative loop:

- `RedirectGuard` (redirect.dfy): `check_for_redirect` and the message it raises.
- `PageParser` (page.dfy): `parse_book_page`. The page is given by what its
  CSS selectors pick out. The heading is split on `::` into exactly two
  pieces, each sanitized and stripped.
- `Urls` (urls.dfy): `get_file_extension`, which takes
  `urlsplit(url).path`, then `os.path.split(...)[1]`, then
  `os.path.splitext(...)[1]`, and POSIX `os.path.join`.
- `Assets` (assets.dfy): the naming and writing in `download_image` and
  `save_text`. The disk is a value: a set of directories and a map from
  paths to contents.
- `Attempts` (attempt.dfy): the `try` block of `get_books` for one id and
  its two `except` clauses. The result is the effects in order, the disk
  after, and the outcome.
- `Driver` (driver.dfy): the `for` loop of `get_books`. It is a method with
  a `while` loop over the range. It is proved equal to the specification
  function `RunPrefix`, and the run-wide properties are proved about that
  function.
- `Strings` (strings.dfy), `Io` (io.dfy) and `Wrappers` (wrappers.dfy):
  `str.split('::')`, `str.strip()`, `str(int)`, responses, exceptions, the
  disk and the effect log.

The network is one `Fetches` value per id: what the text, page and image
requests give back. `sanitize_filename` and `urljoin` are parameters
(`Attempts.Env`).

Behaviour of the code worth noting, which the model follows:

- A page without a cover `img` fails to parse, but an `img` without a
  `src` gives `None`, and `urljoin(page_url, None)` gives the page's own
  URL, so the page itself is downloaded as the cover (main.py:38,
  main.py:93).
- A page that cannot be parsed, and any exception other than `HTTPError`
  and `ConnectionError`, leaves the loop and ends the run (main.py:88,
  main.py:97-107). No handler skips them.
- The text file is named `<id>. <title>.txt` (main.py:89-92, main.py:70),
  with the id in front of the title.
- `print` ends each line with a line break, so the author line ends in two
  (main.py:108-109).
- Which exception a failed request raises is an input of the model
  (`Io.Fault`): `HTTPError` skips the id, `ConnectionError` backs off, and
  any other class ends the run. In `requests`, a `ReadTimeout` while
  waiting for the headers is not a `ConnectionError` and so ends the run,
  while a timeout while reading the body surfaces as a `ConnectionError`
  and backs off; the model covers both through the class it is given.
- The redirect message starts with a Latin `C`, as written at main.py:23.
- The placeholder cover is recognised by the whole link ending in
  `nopic.gif` (main.py:55), so a query or fragment after it defeats the
  test, although the link's path does end in `nopic.gif`.

## Model

| member | source | states |
|---|---|---|
| Strings.SplitSep | main.py:31 | `split('::')` yields at least one piece and no piece holds `::`; every cut is at the leftmost separator, so no piece but the last ends in `:`; there is exactly one piece iff the text holds no `::` |
| Strings.SplitJoin | main.py:31 | joining the pieces back with `::` gives the original text |
| Strings.SplitInTwo | main.py:31 | there are exactly two pieces iff the text holds a `::` but no two non-overlapping ones; the text is then the first piece, `::`, the second |
| Strings.SplitAtLeastThree | main.py:31 | there are three pieces or more iff the text holds two non-overlapping `::` |
| Strings.Strip | main.py:32-33 | `strip()` leaves no whitespace at either end |
| Strings.StripTrims | main.py:32-33 | the stripped text is a slice of the input with only whitespace on each side of it |
| Strings.StripIdempotent | main.py:32-33 | stripping twice is stripping once |
| Strings.IntToString | main.py:59 | `str(book_id)` is digits, with a leading `-` exactly for a negative id |
| Strings.IntToStringRoundTrip | main.py:59 | parsing `str(book_id)` gives the id back |
| Strings.IntToStringInjective | main.py:59 | different ids give different strings |
| RedirectGuard.CheckForRedirect | main.py:20-25 | raises `HTTPError` exactly when `response.history` is non-empty, naming the first redirected URL and the final URL |
| RedirectGuard.RedirectMessageLayout | main.py:22-25 | the first URL stands after the fixed opening, then a line break, and the final URL ends the message |
| RedirectGuard.RedirectMessageDeterminesUrls | main.py:22-25 | if the first URL has no line break, the message determines both URLs |
| PageParser.ParseHeading | main.py:30-33 | the heading unpacks iff it splits into exactly two pieces; title and author are those pieces sanitized and stripped, with no whitespace at either end; otherwise the unpacking fails with a piece count other than two |
| PageParser.ParseBookPage | main.py:28-41 | fails on a missing heading, then on a heading that is not two pieces, then on a missing cover `img`; otherwise it keeps every review and genre in document order and the cover's `src` unchanged (absent when the `img` has none), with no book_path yet |
| PageParser.ParsedKeys | main.py:39-40 | a freshly parsed book holds exactly the keys title, author, comments, genres and img_src |
| PageParser.JoinedSplits | main.py:31 | a title and an author without colons, joined by `::`, split back into exactly those two |
| PageParser.HeadingRoundTrip | main.py:31-33 | for a title and an author without colons, the heading `title::author` parses to the sanitized, stripped title and author |
| PageParser.HeadingWithoutSep | main.py:31 | a heading without a colon is one piece, so the unpacking fails |
| PageParser.HeadingWithTwoSeps | main.py:31 | a heading with two separators is three pieces, so the unpacking fails |
| Urls.UrlPath | main.py:45 | `urlsplit(url).path` holds no `?` and no `#` |
| Urls.PathIgnoresQuery | main.py:45 | whatever follows the first `?` or `#` does not change the path |
| Urls.UrlPathOf | main.py:45 | the path of `scheme://host/path` is `/path` |
| Urls.PathTail | main.py:46 | `os.path.split(p)[1]` ends `p`, holds no `/`, and follows a `/` whenever it is shorter than `p` |
| Urls.TailAfterSlash | main.py:46 | the tail of `dir/name` is `name` |
| Urls.SplitExt | main.py:47 | `splitext(name)[1]` is empty or a dot followed by no dot; it ends the name; it is non-empty iff a dot has a non-dot character somewhere before it |
| Urls.ExtAfterDot | main.py:47 | the extension of `stem.ext` is `.ext` |
| Urls.NoDotNoExt | main.py:47 | a name without a dot has no extension |
| Urls.GetFileExtension | main.py:44-47 | the extension is empty or a dot with no further dot, `/`, `?` or `#`; it ends the last segment of the URL's path and is non-empty iff that segment has an extension |
| Urls.ExtensionIgnoresQuery | main.py:44-47 | the query and the fragment never change the extension |
| Urls.ExtensionOfUrl | main.py:44-47 | the extension of `scheme://host/dir/name` is the extension of `name` |
| Urls.PathJoin | main.py:51 | POSIX `os.path.join(a, b)` is `b` when `b` is absolute, and otherwise `a`, a `/` unless `a` is empty or already ends in one, then `b` |
| Urls.SplitUndoesJoin | main.py:51-60 | `os.path.split` of a folder joined with a name without `/` gives the name back |
| Io.MakeDir | main.py:52 | `mkdir(exist_ok=True)` adds the directory, keeps every other one, and leaves the files alone |
| Io.WriteFile | main.py:61-62 | opening for writing replaces the file's content and leaves the directories alone |
| Assets.ImageName | main.py:55-59 | a link ending in `nopic.gif` gives `nopic.gif`; any other link gives the id followed by the link's extension, a name without `/` |
| Assets.PlaceholderShared | main.py:55-56 | every placeholder cover maps to the same file, whatever the id |
| Assets.ImageNameDeterminesId | main.py:55-59 | apart from the placeholder, two image names are equal only for the same id and the same extension |
| Assets.ImageNameOfUrl | main.py:55-59 | a cover at `scheme://host/dir/stem.ext` is saved as `<id>.ext` |
| Assets.TextFileName | main.py:69-70 | the text file name is exactly the sanitized, stripped name followed by `.txt`; it holds no `/` if the sanitized name holds none |
| Assets.SaveText | main.py:66-73 | makes the folder, writes the text to the folder joined with the file name (replacing any file there), and returns that path |
| Assets.TextPathInBooks | main.py:67-70 | with the default folders the text goes to `books/<name>.txt` |
| Assets.JoinInFolder | main.py:60 | a plain name joined under a plain folder lands directly in it |
| Assets.DownloadImage | main.py:50-63 | makes the folder first; a failed request raises with nothing written; otherwise writes the bytes under `ImageName` and returns that path |
| Assets.ImagePathInImages | main.py:51-60 | with the default folders the image goes to `images/<name>` |
| Attempts.Guarded | main.py:81-87 | a request, `raise_for_status()` and the redirect guard succeed iff the response came without a redirect; otherwise the request's exception or the guard's `HTTPError` propagates |
| Attempts.TextUrl | main.py:78-84 | the text request goes to `https://tululu.org/txt.php?id=` followed by `str(book_id)` |
| Attempts.PageUrl | main.py:85 | the page request goes to `https://tululu.org/b`, then `str(book_id)`, then `/` |
| Attempts.RequestUrlsDistinct | main.py:78-85 | no text URL is a page URL, and different ids give different text URLs and different page URLs |
| Attempts.CoverLink | main.py:93 | the cover link is `urljoin(page_url, src)`, and the page URL itself when the `img` has no `src` |
| Attempts.Caught | main.py:97-107 | `HTTPError` skips with an INFO record and the stderr echo; `ConnectionError` backs off with a WARNING, the echo and a 15-second sleep; anything else escapes; the disk is untouched |
| Attempts.CaughtReported | main.py:97-107 | a handled exception adds exactly its report after quiet effects |
| Attempts.Summary | main.py:108-109 | two stdout lines: the title label, the title and one line break, then the author label, the author and two line breaks |
| Attempts.Report | main.py:97-109 | a crash reports nothing; any other outcome reports something, never a request or a write; a skip or a backoff echoes the exception's message with two line breaks to stderr |
| Attempts.Store | main.py:89-96 | after parsing, the book is saved exactly when the image request succeeds; effects are only added; an image fault is handled according to its class; a saved book differs from the parsed one only in book_path and img_src, both now present |
| Attempts.ProcessSavedIff | main.py:80-96 | an id is saved exactly when both guarded requests, the parse and the image request succeed |
| Attempts.Process | main.py:80-107 | the text request always comes first; the disk changes only when both guarded requests and the parse succeed; a saved book has its book_path |
| Attempts.SavedKeys | main.py:95-96 | a saved book holds book_path as well as the five parsed keys |
| Attempts.ProcessSaved | main.py:80-109 | a saved id requests text, page and image in that order, writes `books/<id>. <title>.txt` then `images/<name>`, records both paths in the book and prints title and author |
| Attempts.CoverWithoutSrc | main.py:38-94 | when the cover `img` has no `src`, the page URL is requested again as the cover and saved as an image, and the book is saved |
| Attempts.ProcessReported | main.py:97-109 | every attempt first makes only requests and writes, then reports exactly once as its outcome dictates |
| Attempts.TextRedirectSkips | main.py:81-101 | a redirected text request skips the id after one request, with the INFO record and stderr line naming both URLs, and writes nothing |
| Attempts.PageRedirectSkips | main.py:85-101 | a redirected page request skips the id the same way, after both requests |
| Attempts.RequestFaultHandled | main.py:80-107 | a failure of either guarded request is handled according to its exception class, with nothing written |
| Attempts.ParseFaultCrashes | main.py:88 | a page that cannot be parsed ends the run after the two requests, with nothing written or reported |
| Attempts.StoreImageRaised | main.py:89-107 | a failed image request leaves the text file written and is handled according to its exception class |
| Attempts.ImageFaultKeepsText | main.py:80-107 | for a whole attempt whose image request fails: the text file stays, the exception is handled, and nothing is printed |
| Attempts.ReportAccounted | main.py:97-109 | each report sleeps once exactly for a backoff and prints two lines exactly for a saved book |
| Attempts.ProcessAccounted | main.py:97-109 | an attempt sleeps once iff it caught a ConnectionError, and prints two lines iff it saved the book |
| Attempts.WritesUnderTrans | main.py:77 | removing nothing and writing only `books/...` and `images/...` is preserved over successive attempts |
| Attempts.StoreWritesUnder | main.py:89-94 | saving the text and image removes nothing and writes only `books/...` and `images/...` |
| Attempts.ProcessWritesUnder | main.py:80-107 | with a sanitizer that never yields `/`, an attempt removes nothing and writes only `books/...` and `images/...` |
| Attempts.StoreIdempotent | main.py:61-72 | saving the same text and image again over the disk the first save left changes nothing |
| Attempts.ProcessIdempotent | main.py:80-96 | running an attempt again, with the same responses, over the disk it left changes nothing |
| Driver.HaltedStays | main.py:77-109 | once an exception has escaped, later ids change nothing |
| Driver.RunPrefix | main.py:77-109 | the visits are to `start_id`, `start_id + 1`, ... in order, at most the range's length; all of them unless the run crashed; only the last can have crashed |
| Driver.ForEachId | main.py:77-107 | the loop over the range computes the run `RunPrefix` specifies |
| Driver.GetBooks | main.py:76-109 | visits ids in ascending order, once each, up to the end of the range or an uncaught exception; an empty range does nothing; pauses and printed lines tally with the outcomes; with a safe sanitizer it writes only under `books/` and `images/` |
| Driver.RunVisit | main.py:77-107 | visit `k` is the loop body applied to id `start_id + k` on the disk the first `k` visits left |
| Driver.RunCounts | main.py:102-109 | over a run, `sleep(15)` is called once per ConnectionError and two lines are printed per saved book |
| Driver.RunWritesUnder | main.py:77-107 | a whole run removes nothing and writes only `books/...` and `images/...` |
| Driver.RedirectedRun | main.py:77-101 | if every id redirects, the run visits every id, none crashes and the disk is unchanged |
| Driver.RedirectedRangeSkips | main.py:77-101 | if every id redirects, each is skipped after its text request with its INFO record and stderr line, and nothing is written, printed or slept |

## Left out

- The HTTP transport is left out: `requests.get`, URL building from `params`, timeouts and status codes. Each request's result is a `Fetch` value, and `raise_for_status` is folded into it.
- HTML parsing with BeautifulSoup and the CSS selectors is left out. A page is given by what the selectors select.
- `comment.span.string` (main.py:35) can be `None` for a review with several children. The model takes each review's string as present.
- `sanitize_filename` (pathvalidate) and `urljoin` are parameters, not definitions. Where a property needs it, the model assumes the sanitizer never yields `/`.
- Logging configuration, the rotating file handler and the command line in `main` (main.py:112-130) are left out. Log records are events.
- The `tqdm` progress bar is left out.
- `sleep(15)` is an event; no time passes.
- UTF-8 encoding of the text file is left out. Text is written as a string and images as bytes.
- The update of the book dictionary in place (main.py:95-96) is a record update. Nothing else holds a reference to the dictionary.
- Urls.UrlPath: does not model the `ValueError` that `urlsplit` raises on malformed IPv6 netlocs, or the special handling of some schemes by older Python versions.
- Urls.PathJoin: models a single two-argument POSIX join, the only form the source uses.
- Io.MakeDir: adds only the named directory, not the missing ancestors that `parents=True` also creates; the scraper only makes `books` and `images`, which have none.
- The file system cannot fail: `mkdir` and `open` always succeed.
