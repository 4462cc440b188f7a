/**
 * One pass of the loop in `get_books`: the `try` block for one book id
 * (fetch text, redirect guard, fetch page, redirect guard, parse, save
 * text, resolve and save image, print) and its two `except` clauses. An
 * HTTPError skips the id, a ConnectionError skips it after a pause, and
 * any other exception leaves the loop.
 *
 * What the network answers is given as one `Fetches` value per id.
 * `sanitize_filename` and `urljoin` are passed in as functions.
 */
module Attempts {
  import opened Wrappers
  import opened Strings
  import opened Urls
  import opened Io
  import opened RedirectGuard
  import opened PageParser
  import opened Assets

  /** The library functions the driver calls but the model does not define. */
  datatype Env = Env(sanitize: string -> string, urljoin: (string, string) -> string)

  /** What the three requests made for one id would give back. */
  datatype Fetches = Fetches(text: Fetch<string>, page: Fetch<Page>, image: Fetch<seq<byte>>)

  const BaseUrl: string := "https://tululu.org/"
  const BackoffSeconds: nat := 15

  const TextQuery: string := "txt.php?id="

  /** The URL `requests` builds from `txt.php` and `params={'id': book_id}`: the id is the whole query value. */
  function TextUrl(id: int): (u: string)
    ensures StartsWith(u, BaseUrl + TextQuery)
    ensures u[|BaseUrl + TextQuery|..] == IntToString(id)
  {
    BaseUrl + TextQuery + IntToString(id)
  }

  /** The book page `b<id>/` under the site's root: the id stands between the `b` and the closing `/`. */
  function PageUrl(id: int): (u: string)
    ensures StartsWith(u, BaseUrl + "b") && EndsWith(u, "/")
    ensures |u| == |BaseUrl| + 2 + |IntToString(id)|
    ensures u[|BaseUrl| + 1..|u| - 1] == IntToString(id)
  {
    var u := BaseUrl + "b" + IntToString(id) + "/";
    assert u[|BaseUrl| + 1..|u| - 1] == IntToString(id);
    u
  }

  /** Different ids are requested at different URLs, and a text URL is never a page URL. */
  lemma RequestUrlsDistinct(a: int, b: int)
    ensures TextUrl(a) != PageUrl(b)
    ensures TextUrl(a) == TextUrl(b) ==> a == b
    ensures PageUrl(a) == PageUrl(b) ==> a == b
  {
    assert TextUrl(a)[|BaseUrl|] == (BaseUrl + TextQuery)[|BaseUrl|] == 't';
    assert PageUrl(b)[|BaseUrl|] == (BaseUrl + "b")[|BaseUrl|] == 'b';
    if TextUrl(a) == TextUrl(b) {
      IntToStringInjective(a, b);
    }
    if PageUrl(a) == PageUrl(b) {
      IntToStringInjective(a, b);
    }
  }

  /** The name handed to `save_text`: the id, a dot, a space and the title. */
  function TextName(id: int, title: string): string {
    IntToString(id) + ". " + title
  }

  function InfoText(id: int, message: string): string {
    "Невозможно загрузить книгу по данному book_id = " + IntToString(id) + "\n" + message + "\n"
  }

  function WarningText(id: int, message: string): string {
    "Произошёл сетевой сбой на книге с данным book_id = " + IntToString(id) + "\n" + message + "\n"
  }

  /** The labels of the two lines printed for a saved book ("Title: ", "Author: "). */
  const TitleLabel: string := "Название: "
  const AuthorLabel: string := "Автор: "

  /**
   * The two `print` calls after a book is saved: the title after its
   * label, then the author after its label and an explicit line break;
   * `print` ends each line with one more.
   */
  function Summary(book: Book): (r: seq<Event>)
    ensures |r| == 2 && r[0].Stdout? && r[1].Stdout?
    ensures |r[0].text| == |TitleLabel| + |book.title| + 1 && |r[1].text| == |AuthorLabel| + |book.author| + 2
    ensures StartsWith(r[0].text, TitleLabel) && EndsWith(r[0].text, "\n")
    ensures r[0].text[|TitleLabel|..|r[0].text| - 1] == book.title
    ensures StartsWith(r[1].text, AuthorLabel) && EndsWith(r[1].text, "\n\n")
    ensures r[1].text[|AuthorLabel|..|r[1].text| - 2] == book.author
  {
    var title := TitleLabel + book.title + "\n";
    var author := AuthorLabel + book.author + "\n" + "\n";
    assert title[|TitleLabel|..|title| - 1] == book.title;
    assert author[|AuthorLabel|..|author| - 2] == book.author;
    [Stdout(title), Stdout(author)]
  }

  /** An exception no `except` clause catches: it leaves `get_books` and ends the run. */
  datatype Crash = Uncaught(message: string) | Unparsable(fault: ParseFault)

  /** How the attempt at one id ended. */
  datatype Outcome =
    | Saved(book: Book)          // every stage succeeded; the book record after its update
    | Skipped(message: string)   // an HTTPError was caught
    | BackedOff(message: string) // a ConnectionError was caught
    | Crashed(crash: Crash)      // an exception escaped

  /** The effects of one attempt, the disk after it, and how it ended. */
  datatype Attempt = Attempt(events: seq<Event>, disk: Disk, outcome: Outcome)

  /** A request followed by `raise_for_status()` and `check_for_redirect`. */
  function Guarded<T>(fetch: Fetch<T>): (r: Result<Response<T>, Fault>)
    ensures r.Success? <==> fetch.Fetched? && fetch.response.history == []
    ensures r.Success? ==> r.value == fetch.response
    ensures fetch.Raised? ==> r == Failure(fetch.fault)
    ensures fetch.Fetched? && fetch.response.history != [] ==>
      r == Failure(HttpError(RedirectMessage(fetch.response.history[0], fetch.response.url)))
  {
    match fetch
    case Raised(fault) => Failure(fault)
    case Fetched(response) =>
      match CheckForRedirect(response)
      case Fail(fault) => Failure(fault)
      case Pass => Success(response)
  }

  /**
   * What an attempt reports once its requests and writes are over: the
   * summary printed for a saved book, the log record and stderr echo of
   * a handled exception (followed by the pause for a ConnectionError),
   * and nothing when an exception escapes.
   */
  function Report(id: int, outcome: Outcome): (r: seq<Event>)
    ensures r == [] <==> outcome.Crashed?
    ensures forall i :: 0 <= i < |r| ==> !r[i].Get? && !r[i].Wrote?
    ensures outcome.Skipped? || outcome.BackedOff? ==> |r| >= 2 && r[1] == Stderr(outcome.message + "\n\n")
  {
    match outcome
    case Saved(book) => Summary(book)
    case Skipped(m) => [Info(InfoText(id, m)), Stderr(m + "\n\n")]
    case BackedOff(m) => [Warning(WarningText(id, m)), Stderr(m + "\n\n"), Sleep(BackoffSeconds)]
    case Crashed(_) => []
  }

  /**
   * The two `except` clauses, reached with the effects so far: an
   * HTTPError skips the id, a ConnectionError backs off, and any other
   * exception passes through untouched; each reports as `Report` says,
   * after the effects already made, and none touches the disk.
   */
  function Caught(id: int, fault: Fault, events: seq<Event>, disk: Disk): (a: Attempt)
    ensures a.disk == disk
    ensures a.events == events + Report(id, a.outcome)
    ensures fault.HttpError? ==> a.outcome == Skipped(fault.message)
    ensures fault.ConnectionError? ==> a.outcome == BackedOff(fault.message)
    ensures fault.OtherError? ==> a.outcome == Crashed(Uncaught(fault.message))
  {
    match fault
    case HttpError(m) =>
      Attempt(events + [Info(InfoText(id, m)), Stderr(m + "\n\n")], disk, Skipped(m))
    case ConnectionError(m) =>
      Attempt(events + [Warning(WarningText(id, m)), Stderr(m + "\n\n"), Sleep(BackoffSeconds)], disk, BackedOff(m))
    case OtherError(m) =>
      assert events + [] == events;
      Attempt(events, disk, Crashed(Uncaught(m)))
  }

  /**
   * `urljoin(page_url, book['img_src'])`: the cover's `src` resolved
   * against the page's URL. A cover without `src` gives `None`, and
   * `urljoin` returns the base URL for it, so the page itself is then
   * downloaded as the image.
   */
  function CoverLink(pageUrl: string, imgSrc: Option<string>, env: Env): (link: string)
    ensures imgSrc.None? ==> link == pageUrl
    ensures imgSrc.Some? ==> link == env.urljoin(pageUrl, imgSrc.value)
  {
    match imgSrc
    case None => pageUrl
    case Some(src) => env.urljoin(pageUrl, src)
  }

  /**
   * The last stages of the `try` block, once the page has been parsed:
   * save the text, resolve the cover against the page's URL and download
   * it, update the record and print it. A failed image request reaches
   * the handlers with the text already written.
   */
  function Store(id: int, text: string, pageUrl: string, book: Book, image: Fetch<seq<byte>>,
                 env: Env, events: seq<Event>, disk: Disk): (a: Attempt)
    ensures a.outcome.Saved? <==> image.Fetched?
    ensures events < a.events
    ensures image.Raised? ==> Handles(image.fault, a.outcome)
    ensures a.outcome.Saved? ==>
      && a.outcome.book.bookPath.Some? && a.outcome.book.imgSrc.Some?
      && a.outcome.book.(bookPath := book.bookPath, imgSrc := book.imgSrc) == book
  {
    var saved := SaveText(disk, text, TextName(id, book.title), env.sanitize);
    var link := CoverLink(pageUrl, book.imgSrc, env);
    var got := DownloadImage(saved.disk, link, id, image);
    match got.result
    case Failure(fault) =>
      var more := [Wrote(saved.path), Get(link)];
      EventsGrow(events, more);
      Caught(id, fault, events + more, got.disk)
    case Success(imgPath) =>
      var done := book.(bookPath := Some(saved.path), imgSrc := Some(imgPath));
      var more := [Wrote(saved.path), Get(link), Wrote(imgPath)];
      EventsGrow(events, more);
      EventsGrow(events + more, Summary(done));
      Attempt(events + more + Summary(done), got.disk, Saved(done))
  }

  lemma EventsGrow(events: seq<Event>, more: seq<Event>)
    requires more != []
    ensures events < events + more
  {
  }

  /** The body of the loop for one id: the `try` block and its handlers. */
  function Process(id: int, f: Fetches, env: Env, disk: Disk): (a: Attempt)
    ensures |a.events| >= 1 && a.events[0] == Get(TextUrl(id))
    ensures a.disk != disk ==>
      && Guarded(f.text).Success? && Guarded(f.page).Success?
      && ParseBookPage(Guarded(f.page).value.body, env.sanitize).Success?
    ensures a.outcome.Saved? ==> a.outcome.book.bookPath.Some?
  {
    var e0 := [Get(TextUrl(id))];
    match Guarded(f.text)
    case Failure(fault) =>
      var a := Caught(id, fault, e0, disk);
      assert a.events[0] == e0[0];
      a
    case Success(text) =>
      var e1 := [Get(TextUrl(id)), Get(PageUrl(id))];
      match Guarded(f.page)
      case Failure(fault) =>
        var a := Caught(id, fault, e1, disk);
        assert a.events[0] == e1[0];
        a
      case Success(page) =>
        match ParseBookPage(page.body, env.sanitize)
        case Failure(pf) => Attempt(e1, disk, Crashed(Unparsable(pf)))
        case Success(book) =>
          var a := Store(id, text.body, page.url, book, f.image, env, e1, disk);
          assert a.events[0] == e1[0];
          a
  }

  /** The record of a saved book holds `book_path` besides the five keys the parser filled. */
  lemma SavedKeys(id: int, f: Fetches, env: Env, disk: Disk)
    ensures var a := Process(id, f, env, disk);
      a.outcome.Saved? ==> Keys(a.outcome.book) == {"title", "author", "comments", "genres", "img_src", "book_path"}
  {
  }

  /** Where each stage of `Process` hands over: the text request, the page request, the parse, the rest. */
  lemma ProcessStages(id: int, f: Fetches, env: Env, disk: Disk)
    ensures var a := Process(id, f, env, disk);
      var e0 := [Get(TextUrl(id))];
      var e1 := [Get(TextUrl(id)), Get(PageUrl(id))];
      var t := Guarded(f.text);
      var p := Guarded(f.page);
      && (t.Failure? ==> a == Caught(id, t.error, e0, disk))
      && (t.Success? && p.Failure? ==> a == Caught(id, p.error, e1, disk))
      && (t.Success? && p.Success? ==>
            var b := ParseBookPage(p.value.body, env.sanitize);
            && (b.Failure? ==> a == Attempt(e1, disk, Crashed(Unparsable(b.error))))
            && (b.Success? ==> a == Store(id, t.value.body, p.value.url, b.value, f.image, env, e1, disk)))
  {
  }

  /** Writing the same contents to the same paths a second time changes nothing. */
  lemma RewriteSame(files: map<string, Content>, p: string, x: Content, q: string, y: Content)
    ensures files[p := x][p := x] == files[p := x]
    ensures files[p := x][q := y][p := x][q := y] == files[p := x][q := y]
  {
    var m := files[p := x][q := y];
    if p != q {
      assert m[p := x] == m;
    }
  }

  /** The last stages, run again on the disk they left, leave it as it is. */
  lemma StoreIdempotent(id: int, text: string, pageUrl: string, book: Book, image: Fetch<seq<byte>>,
                        env: Env, events: seq<Event>, events2: seq<Event>, disk: Disk)
    ensures var d1 := Store(id, text, pageUrl, book, image, env, events, disk).disk;
      Store(id, text, pageUrl, book, image, env, events2, d1).disk == d1
  {
    var name := TextName(id, book.title);
    var link := CoverLink(pageUrl, book.imgSrc, env);
    var s1 := SaveText(disk, text, name, env.sanitize);
    var g1 := DownloadImage(s1.disk, link, id, image);
    var d1 := Store(id, text, pageUrl, book, image, env, events, disk).disk;
    assert d1 == g1.disk;
    var s2 := SaveText(d1, text, name, env.sanitize);
    var g2 := DownloadImage(s2.disk, link, id, image);
    assert Store(id, text, pageUrl, book, image, env, events2, d1).disk == g2.disk;
    var dirs := disk.dirs + {PathJoin("", "books")} + {PathJoin("", "images")};
    assert g1.disk.dirs == dirs && g2.disk.dirs == dirs;
    if image.Raised? {
      RewriteSame(disk.files, s1.path, Text(text), s1.path, Text(text));
    } else {
      RewriteSame(disk.files, s1.path, Text(text), g1.result.value, Bytes(image.response.body));
    }
  }

  /** Every stage of the `try` block gets through: both guarded requests, the parse and the image request. */
  predicate Succeeds(f: Fetches, env: Env) {
    && f.text.Fetched? && f.text.response.history == []
    && f.page.Fetched? && f.page.response.history == []
    && ParseBookPage(f.page.response.body, env.sanitize).Success?
    && f.image.Fetched?
  }

  /** `sanitize_filename` never yields a path separator. */
  ghost predicate SafeNames(env: Env) {
    forall s :: '/' !in env.sanitize(s)
  }

  lemma EventsFlatten(a: Event, b: Event, c: Event, d: Event, e: Event, rest: seq<Event>)
    ensures [a, b] + [c, d, e] + rest == [a, b, c, d, e] + rest
  {
  }

  lemma DirsAdded(dirs: set<string>, x: string, y: string)
    ensures dirs + {x} + {y} == dirs + {x, y}
  {
  }

  /** An id is saved exactly when every stage succeeds. */
  lemma ProcessSavedIff(id: int, f: Fetches, env: Env, disk: Disk)
    ensures var a := Process(id, f, env, disk);
      a.outcome.Saved? <==> Succeeds(f, env)
  {
    ProcessStages(id, f, env, disk);
    var a := Process(id, f, env, disk);
    var e0 := [Get(TextUrl(id))];
    var e1 := [Get(TextUrl(id)), Get(PageUrl(id))];
    var t := Guarded(f.text);
    var p := Guarded(f.page);
    if t.Failure? {
      assert a == Caught(id, t.error, e0, disk);
      assert !Succeeds(f, env);
    } else if p.Failure? {
      assert a == Caught(id, p.error, e1, disk);
      assert !Succeeds(f, env);
    } else {
      var b := ParseBookPage(p.value.body, env.sanitize);
      if b.Failure? {
        assert a == Attempt(e1, disk, Crashed(Unparsable(b.error)));
        assert !Succeeds(f, env);
      } else {
        assert a == Store(id, t.value.body, p.value.url, b.value, f.image, env, e1, disk);
      }
    }
  }

  /**
   * An attempt repeated on the same answers, on the disk the first one
   * left, rewrites the same files with the same contents: the disk stays
   * as it is.
   */
  lemma ProcessIdempotent(id: int, f: Fetches, env: Env, disk: Disk)
    ensures var d1 := Process(id, f, env, disk).disk;
      Process(id, f, env, d1).disk == d1
  {
    var d1 := Process(id, f, env, disk).disk;
    if d1 != disk {
      ProcessStages(id, f, env, disk);
      ProcessStages(id, f, env, d1);
      var t := Guarded(f.text);
      var p := Guarded(f.page);
      var b := ParseBookPage(p.value.body, env.sanitize);
      var e1 := [Get(TextUrl(id)), Get(PageUrl(id))];
      StoreIdempotent(id, t.value.body, p.value.url, b.value, f.image, env, e1, e1, disk);
    }
  }

  /**
   * A saved id: the text went to `books/` under the id and the title, the
   * image to `images/`, in that order; the book record is updated with
   * both paths and its title and author are printed last.
   */
  lemma ProcessSaved(id: int, f: Fetches, env: Env, disk: Disk)
    requires SafeNames(env)
    requires Succeeds(f, env)
    ensures var a := Process(id, f, env, disk);
      var book := ParseBookPage(f.page.response.body, env.sanitize).value;
      var textPath := "books" + "/" + TextFileName(TextName(id, book.title), env.sanitize);
      var link := CoverLink(f.page.response.url, book.imgSrc, env);
      var imgPath := "images" + "/" + ImageName(link, id);
      && a.outcome == Saved(book.(bookPath := Some(textPath), imgSrc := Some(imgPath)))
      && a.events == [Get(TextUrl(id)), Get(PageUrl(id)), Wrote(textPath), Get(link), Wrote(imgPath)] + Summary(a.outcome.book)
      && a.disk.files == disk.files[textPath := Text(f.text.response.body)][imgPath := Bytes(f.image.response.body)]
      && a.disk.dirs == disk.dirs + {"books", "images"}
  {
    ProcessStages(id, f, env, disk);
    var book := ParseBookPage(f.page.response.body, env.sanitize).value;
    var e1 := [Get(TextUrl(id)), Get(PageUrl(id))];
    var link := CoverLink(f.page.response.url, book.imgSrc, env);
    var saved := SaveText(disk, f.text.response.body, TextName(id, book.title), env.sanitize);
    var got := DownloadImage(saved.disk, link, id, f.image);
    var textPath := "books" + "/" + TextFileName(TextName(id, book.title), env.sanitize);
    var imgPath := "images" + "/" + ImageName(link, id);
    TextPathInBooks(disk, f.text.response.body, TextName(id, book.title), env.sanitize);
    ImagePathInImages(link, id);
    FolderPaths();
    assert saved.path == textPath;
    assert got.result == Success(imgPath);
    var done := book.(bookPath := Some(textPath), imgSrc := Some(imgPath));
    var a := Process(id, f, env, disk);
    assert a == Store(id, f.text.response.body, f.page.response.url, book, f.image, env, e1, disk);
    assert a == Attempt(e1 + [Wrote(textPath), Get(link), Wrote(imgPath)] + Summary(done), got.disk, Saved(done));
    EventsFlatten(Get(TextUrl(id)), Get(PageUrl(id)), Wrote(textPath), Get(link), Wrote(imgPath), Summary(done));
    DirsAdded(disk.dirs, "books", "images");
  }

  /**
   * A cover `<img>` without `src`: `urljoin` gets `None` and returns the
   * page's URL, so the page itself is requested as the image and saved
   * under the id and that URL's extension.
   */
  lemma CoverWithoutSrc(id: int, f: Fetches, env: Env, disk: Disk)
    requires SafeNames(env)
    requires Succeeds(f, env)
    requires ParseBookPage(f.page.response.body, env.sanitize).value.imgSrc.None?
    ensures var a := Process(id, f, env, disk);
      var book := ParseBookPage(f.page.response.body, env.sanitize).value;
      var textPath := "books" + "/" + TextFileName(TextName(id, book.title), env.sanitize);
      var imgPath := "images" + "/" + ImageName(f.page.response.url, id);
      && a.outcome == Saved(book.(bookPath := Some(textPath), imgSrc := Some(imgPath)))
      && a.events == [Get(TextUrl(id)), Get(PageUrl(id)), Wrote(textPath), Get(f.page.response.url), Wrote(imgPath)]
                     + Summary(a.outcome.book)
  {
    ProcessSaved(id, f, env, disk);
    var book := ParseBookPage(f.page.response.body, env.sanitize).value;
    assert CoverLink(f.page.response.url, book.imgSrc, env) == f.page.response.url;
  }

  /** Only requests and file writes: nothing logged, echoed, printed or slept. */
  predicate Quiet(events: seq<Event>) {
    forall i :: 0 <= i < |events| ==> events[i].Get? || events[i].Wrote?
  }

  /** The attempt's effects are quiet ones followed by exactly its report. */
  predicate Reported(id: int, a: Attempt) {
    var r := Report(id, a.outcome);
    && |r| <= |a.events|
    && a.events == a.events[..|a.events| - |r|] + r
    && Quiet(a.events[..|a.events| - |r|])
  }

  lemma ReportedAfter(id: int, quiet: seq<Event>, a: Attempt)
    requires Quiet(quiet) && a.events == quiet + Report(id, a.outcome)
    ensures Reported(id, a)
  {
    assert a.events[..|quiet|] == quiet;
  }

  lemma QuietAppend(a: seq<Event>, b: seq<Event>)
    requires Quiet(a) && Quiet(b)
    ensures Quiet(a + b)
  {
  }

  lemma RequestsQuiet(id: int)
    ensures Quiet([Get(TextUrl(id))]) && Quiet([Get(TextUrl(id)), Get(PageUrl(id))])
  {
  }

  lemma StoreQuiet(text: string, link: string, image: string)
    ensures Quiet([Wrote(text), Get(link)]) && Quiet([Wrote(text), Get(link), Wrote(image)])
  {
  }

  lemma CaughtReported(id: int, fault: Fault, events: seq<Event>, disk: Disk)
    requires Quiet(events)
    ensures Reported(id, Caught(id, fault, events, disk))
  {
    ReportedAfter(id, events, Caught(id, fault, events, disk));
  }

  lemma StoreReportedRaised(id: int, text: string, pageUrl: string, book: Book, image: Fetch<seq<byte>>,
                            env: Env, events: seq<Event>, disk: Disk)
    requires Quiet(events) && image.Raised?
    ensures Reported(id, Store(id, text, pageUrl, book, image, env, events, disk))
  {
    var saved := SaveText(disk, text, TextName(id, book.title), env.sanitize);
    var link := CoverLink(pageUrl, book.imgSrc, env);
    var got := DownloadImage(saved.disk, link, id, image);
    var e2 := events + [Wrote(saved.path), Get(link)];
    StoreQuiet(saved.path, link, "");
    QuietAppend(events, [Wrote(saved.path), Get(link)]);
    assert Store(id, text, pageUrl, book, image, env, events, disk) == Caught(id, image.fault, e2, got.disk);
    CaughtReported(id, image.fault, e2, got.disk);
  }

  lemma StoreReportedFetched(id: int, text: string, pageUrl: string, book: Book, image: Fetch<seq<byte>>,
                             env: Env, events: seq<Event>, disk: Disk)
    requires Quiet(events) && image.Fetched?
    ensures Reported(id, Store(id, text, pageUrl, book, image, env, events, disk))
  {
    var saved := SaveText(disk, text, TextName(id, book.title), env.sanitize);
    var link := CoverLink(pageUrl, book.imgSrc, env);
    var got := DownloadImage(saved.disk, link, id, image);
    var a := Store(id, text, pageUrl, book, image, env, events, disk);
    var done := book.(bookPath := Some(saved.path), imgSrc := Some(got.result.value));
    var e3 := events + [Wrote(saved.path), Get(link), Wrote(got.result.value)];
    StoreQuiet(saved.path, link, got.result.value);
    QuietAppend(events, [Wrote(saved.path), Get(link), Wrote(got.result.value)]);
    assert a == Attempt(e3 + Summary(done), got.disk, Saved(done));
    ReportedAfter(id, e3, a);
  }

  /**
   * Every attempt makes its requests and writes first and then reports,
   * once: the summary when saved, INFO and stderr when skipped, WARNING,
   * stderr and the pause when backed off, and nothing when it crashed.
   */
  lemma ProcessReported(id: int, f: Fetches, env: Env, disk: Disk)
    ensures Reported(id, Process(id, f, env, disk))
  {
    ProcessStages(id, f, env, disk);
    RequestsQuiet(id);
    var a := Process(id, f, env, disk);
    var e0 := [Get(TextUrl(id))];
    var e1 := [Get(TextUrl(id)), Get(PageUrl(id))];
    var t := Guarded(f.text);
    var p := Guarded(f.page);
    if t.Failure? {
      CaughtReported(id, t.error, e0, disk);
    } else if p.Failure? {
      CaughtReported(id, p.error, e1, disk);
    } else {
      var b := ParseBookPage(p.value.body, env.sanitize);
      if b.Failure? {
        assert a.events == e1 + [];
        ReportedAfter(id, e1, a);
      } else if f.image.Raised? {
        StoreReportedRaised(id, t.value.body, p.value.url, b.value, f.image, env, e1, disk);
      } else {
        StoreReportedFetched(id, t.value.body, p.value.url, b.value, f.image, env, e1, disk);
      }
    }
  }

  // ---------------------------------------------------------------------
  // The handlers, stage by stage
  // ---------------------------------------------------------------------

  /** What each `except` clause makes of an exception. */
  predicate Handles(fault: Fault, outcome: Outcome) {
    match fault
    case HttpError(m) => outcome == Skipped(m)
    case ConnectionError(m) => outcome == BackedOff(m)
    case OtherError(m) => outcome == Crashed(Uncaught(m))
  }

  /**
   * A redirect of the text request, the site's answer for an id without
   * a book, is an HTTPError: the id is skipped with an INFO record and a
   * stderr line naming both URLs, without a pause and without writing.
   */
  lemma TextRedirectSkips(id: int, f: Fetches, env: Env, disk: Disk)
    requires f.text.Fetched? && f.text.response.history != []
    ensures var a := Process(id, f, env, disk);
      var m := RedirectMessage(f.text.response.history[0], f.text.response.url);
      && a.outcome == Skipped(m)
      && a.events == [Get(TextUrl(id)), Info(InfoText(id, m)), Stderr(m + "\n\n")]
      && a.disk == disk
  {
    ProcessStages(id, f, env, disk);
  }

  /** A redirect of the page request skips the id the same way, after both requests. */
  lemma PageRedirectSkips(id: int, f: Fetches, env: Env, disk: Disk)
    requires f.text.Fetched? && f.text.response.history == []
    requires f.page.Fetched? && f.page.response.history != []
    ensures var a := Process(id, f, env, disk);
      var m := RedirectMessage(f.page.response.history[0], f.page.response.url);
      && a.outcome == Skipped(m)
      && a.events == [Get(TextUrl(id)), Get(PageUrl(id)), Info(InfoText(id, m)), Stderr(m + "\n\n")]
      && a.disk == disk
  {
    ProcessStages(id, f, env, disk);
  }

  /**
   * A request that fails before the page is parsed reaches the handlers
   * with nothing written: the id is skipped, backed off from or ends the
   * run according to the exception, and the disk is as it was.
   */
  lemma RequestFaultHandled(id: int, f: Fetches, env: Env, disk: Disk)
    requires Guarded(f.text).Failure? || Guarded(f.page).Failure?
    ensures var a := Process(id, f, env, disk);
      var fault := if Guarded(f.text).Failure? then Guarded(f.text).error else Guarded(f.page).error;
      && Handles(fault, a.outcome)
      && a.disk == disk
      && a.events == (if Guarded(f.text).Failure? then [Get(TextUrl(id))] else [Get(TextUrl(id)), Get(PageUrl(id))])
                     + Report(id, a.outcome)
  {
    ProcessStages(id, f, env, disk);
  }

  /**
   * A page that cannot be parsed raises outside both handlers: the run
   * ends after the two requests, with nothing written or reported.
   */
  lemma ParseFaultCrashes(id: int, f: Fetches, env: Env, disk: Disk)
    requires Guarded(f.text).Success? && Guarded(f.page).Success?
    requires ParseBookPage(f.page.response.body, env.sanitize).Failure?
    ensures Process(id, f, env, disk) ==
      Attempt([Get(TextUrl(id)), Get(PageUrl(id))], disk,
              Crashed(Unparsable(ParseBookPage(f.page.response.body, env.sanitize).error)))
  {
    ProcessStages(id, f, env, disk);
  }

  lemma StoreImageRaised(id: int, text: string, pageUrl: string, book: Book, image: Fetch<seq<byte>>,
                         env: Env, events: seq<Event>, disk: Disk)
    requires '/' !in env.sanitize(TextName(id, book.title))
    requires image.Raised?
    ensures var a := Store(id, text, pageUrl, book, image, env, events, disk);
      var textPath := "books" + "/" + TextFileName(TextName(id, book.title), env.sanitize);
      var link := CoverLink(pageUrl, book.imgSrc, env);
      && Handles(image.fault, a.outcome)
      && a.events == events + [Wrote(textPath), Get(link)] + Report(id, a.outcome)
      && a.disk.files == disk.files[textPath := Text(text)]
      && a.disk.dirs == disk.dirs + {"books", "images"}
  {
    var saved := SaveText(disk, text, TextName(id, book.title), env.sanitize);
    var link := CoverLink(pageUrl, book.imgSrc, env);
    var got := DownloadImage(saved.disk, link, id, image);
    TextPathInBooks(disk, text, TextName(id, book.title), env.sanitize);
    FolderPaths();
    DirsAdded(disk.dirs, "books", "images");
    assert Store(id, text, pageUrl, book, image, env, events, disk)
        == Caught(id, image.fault, events + [Wrote(saved.path), Get(link)], got.disk);
  }

  /**
   * The text is saved before the image is requested: when the image
   * request fails the text file stays written, the exception is handled
   * as any other, and nothing is printed.
   */
  lemma ImageFaultKeepsText(id: int, f: Fetches, env: Env, disk: Disk)
    requires SafeNames(env)
    requires Guarded(f.text).Success? && Guarded(f.page).Success?
    requires ParseBookPage(f.page.response.body, env.sanitize).Success?
    requires f.image.Raised?
    ensures var a := Process(id, f, env, disk);
      var book := ParseBookPage(f.page.response.body, env.sanitize).value;
      var textPath := "books" + "/" + TextFileName(TextName(id, book.title), env.sanitize);
      var link := CoverLink(f.page.response.url, book.imgSrc, env);
      && Handles(f.image.fault, a.outcome)
      && a.events == [Get(TextUrl(id)), Get(PageUrl(id))] + [Wrote(textPath), Get(link)] + Report(id, a.outcome)
      && a.disk.files == disk.files[textPath := Text(f.text.response.body)]
      && a.disk.dirs == disk.dirs + {"books", "images"}
  {
    ProcessStages(id, f, env, disk);
    var book := ParseBookPage(f.page.response.body, env.sanitize).value;
    StoreImageRaised(id, f.text.response.body, f.page.response.url, book, f.image, env,
                     [Get(TextUrl(id)), Get(PageUrl(id))], disk);
  }

  // ---------------------------------------------------------------------
  // Pauses and printed lines
  // ---------------------------------------------------------------------

  /** How many of `events` satisfy `p`. */
  function CountOf(events: seq<Event>, p: Event -> bool): nat {
    if events == [] then 0 else (if p(events[0]) then 1 else 0) + CountOf(events[1..], p)
  }

  lemma {:induction false} CountConcat(a: seq<Event>, b: seq<Event>, p: Event -> bool)
    ensures CountOf(a + b, p) == CountOf(a, p) + CountOf(b, p)
  {
    if a == [] {
      assert a + b == b;
    } else {
      assert (a + b)[1..] == a[1..] + b;
      CountConcat(a[1..], b, p);
    }
  }

  predicate IsSleep(e: Event) {
    e.Sleep?
  }

  predicate IsStdout(e: Event) {
    e.Stdout?
  }

  lemma {:induction false} QuietCounts(q: seq<Event>)
    requires Quiet(q)
    ensures CountOf(q, IsSleep) == 0 && CountOf(q, IsStdout) == 0
  {
    if q != [] {
      assert q[0] == q[0 + 0];
      assert Quiet(q[1..]) by {
        forall i | 0 <= i < |q[1..]|
          ensures q[1..][i].Get? || q[1..][i].Wrote?
        {
          assert q[1..][i] == q[i + 1];
        }
      }
      QuietCounts(q[1..]);
    }
  }

  /** One pause exactly when the attempt backed off, and two printed lines exactly when it saved the book. */
  predicate Accounted(events: seq<Event>, outcome: Outcome) {
    && CountOf(events, IsSleep) == (if outcome.BackedOff? then 1 else 0)
    && CountOf(events, IsStdout) == (if outcome.Saved? then 2 else 0)
  }

  function Hit(e: Event, p: Event -> bool): nat {
    if p(e) then 1 else 0
  }

  lemma CountShort(x: Event, y: Event, z: Event, p: Event -> bool)
    ensures CountOf([], p) == 0
    ensures CountOf([x, y], p) == Hit(x, p) + Hit(y, p)
    ensures CountOf([x, y, z], p) == Hit(x, p) + Hit(y, p) + Hit(z, p)
  {
    assert [x, y][1..] == [y];
    assert [x, y, z][1..] == [y, z];
    assert [y][1..] == [] && [y, z][1..] == [z] && [z][1..] == [];
    assert CountOf([z], p) == Hit(z, p);
    assert CountOf([y, z], p) == Hit(y, p) + Hit(z, p);
  }

  lemma ReportAccounted(id: int, outcome: Outcome)
    ensures Accounted(Report(id, outcome), outcome)
  {
    match outcome
    case Saved(book) =>
      var s := Summary(book);
      CountShort(s[0], s[1], s[1], IsSleep);
      CountShort(s[0], s[1], s[1], IsStdout);
    case Skipped(m) =>
      CountShort(Info(InfoText(id, m)), Stderr(m + "\n\n"), Stderr(m), IsSleep);
      CountShort(Info(InfoText(id, m)), Stderr(m + "\n\n"), Stderr(m), IsStdout);
    case BackedOff(m) =>
      CountShort(Warning(WarningText(id, m)), Stderr(m + "\n\n"), Sleep(BackoffSeconds), IsSleep);
      CountShort(Warning(WarningText(id, m)), Stderr(m + "\n\n"), Sleep(BackoffSeconds), IsStdout);
    case Crashed(_) =>
      CountShort(Stderr(""), Stderr(""), Stderr(""), IsSleep);
  }

  lemma ReportedAccounted(id: int, a: Attempt)
    requires Reported(id, a)
    ensures Accounted(a.events, a.outcome)
  {
    var r := Report(id, a.outcome);
    var q := a.events[..|a.events| - |r|];
    CountConcat(q, r, IsSleep);
    CountConcat(q, r, IsStdout);
    QuietCounts(q);
    ReportAccounted(id, a.outcome);
  }

  /**
   * An attempt sleeps once when a ConnectionError was caught and never
   * otherwise, and prints the title and author lines only when every
   * stage succeeded.
   */
  lemma ProcessAccounted(id: int, f: Fetches, env: Env, disk: Disk)
    ensures var a := Process(id, f, env, disk);
      Accounted(a.events, a.outcome)
  {
    ProcessReported(id, f, env, disk);
    ReportedAccounted(id, Process(id, f, env, disk));
  }

  // ---------------------------------------------------------------------
  // Where an attempt writes
  // ---------------------------------------------------------------------

  predicate InFolders(path: string) {
    StartsWith(path, "books/") || StartsWith(path, "images/")
  }

  /**
   * From `d0` to `d1` nothing was removed, and what was made or rewritten
   * is one of the two folders or a file inside one of them.
   */
  predicate WritesUnder(d0: Disk, d1: Disk) {
    && d0.dirs <= d1.dirs <= d0.dirs + {"books", "images"}
    && d0.files.Keys <= d1.files.Keys
    && forall p :: p in d1.files && (p !in d0.files || d1.files[p] != d0.files[p]) ==> InFolders(p)
  }

  lemma WritesUnderTrans(d0: Disk, d1: Disk, d2: Disk)
    requires WritesUnder(d0, d1) && WritesUnder(d1, d2)
    ensures WritesUnder(d0, d2)
  {
    forall p | p in d2.files && (p !in d0.files || d2.files[p] != d0.files[p])
      ensures InFolders(p)
    {
      if p in d1.files && (p !in d0.files || d1.files[p] != d0.files[p]) {
      } else {
        assert p in d1.files ==> d1.files[p] == d0.files[p];
      }
    }
  }

  lemma FolderPrefixes(name: string)
    ensures InFolders("books" + "/" + name) && InFolders("images" + "/" + name)
  {
    assert ("books" + "/" + name)[..6] == "books/";
    assert ("images" + "/" + name)[..7] == "images/";
  }

  /** Making one of the folders and writing a file inside it. */
  lemma WroteInFolder(d0: Disk, d1: Disk, path: string, content: Content)
    requires d0.dirs <= d1.dirs <= d0.dirs + {"books", "images"}
    requires d1.files == d0.files[path := content]
    requires InFolders(path)
    ensures WritesUnder(d0, d1)
  {
  }

  lemma StoreWritesUnder(id: int, text: string, pageUrl: string, book: Book, image: Fetch<seq<byte>>,
                         env: Env, events: seq<Event>, disk: Disk)
    requires '/' !in env.sanitize(TextName(id, book.title))
    ensures WritesUnder(disk, Store(id, text, pageUrl, book, image, env, events, disk).disk)
  {
    var saved := SaveText(disk, text, TextName(id, book.title), env.sanitize);
    var link := CoverLink(pageUrl, book.imgSrc, env);
    var got := DownloadImage(saved.disk, link, id, image);
    TextPathInBooks(disk, text, TextName(id, book.title), env.sanitize);
    FolderPaths();
    FolderPrefixes(TextFileName(TextName(id, book.title), env.sanitize));
    WroteInFolder(disk, saved.disk, saved.path, Text(text));
    if image.Fetched? {
      ImagePathInImages(link, id);
      FolderPrefixes(ImageName(link, id));
      WroteInFolder(saved.disk, got.disk, got.result.value, Bytes(image.response.body));
    } else {
      assert WritesUnder(saved.disk, got.disk);
    }
    WritesUnderTrans(disk, saved.disk, got.disk);
    assert Store(id, text, pageUrl, book, image, env, events, disk).disk == got.disk;
  }

  /**
   * With a sanitizer that never yields `/`, an attempt removes nothing
   * and makes or rewrites only `books`, `images` and files directly in
   * them.
   */
  lemma ProcessWritesUnder(id: int, f: Fetches, env: Env, disk: Disk)
    requires SafeNames(env)
    ensures WritesUnder(disk, Process(id, f, env, disk).disk)
  {
    ProcessStages(id, f, env, disk);
    var t := Guarded(f.text);
    var p := Guarded(f.page);
    if t.Success? && p.Success? {
      var b := ParseBookPage(p.value.body, env.sanitize);
      if b.Success? {
        StoreWritesUnder(id, t.value.body, p.value.url, b.value, f.image, env,
                         [Get(TextUrl(id)), Get(PageUrl(id))], disk);
      }
    }
  }
}
