/**
 * The book page parser. The HTML itself is not modelled: a page is given
 * by what the CSS selectors pick out of it, in document order.
 */
module PageParser {
  import opened Wrappers
  import opened Strings

  /**
   * The parts of a book page the parser reads: the text of the `body h1`
   * heading, the string of the span inside each `.texts` review, the text
   * of each `span.d_book a` genre link, and the `.bookimage img` cover. A
   * missing element is `None`.
   */
  datatype Page = Page(
    heading: Option<string>,
    reviews: seq<string>,
    genreLinks: seq<string>,
    cover: Option<Cover>)

  /** The cover `<img>` element: `.get('src')` gives `None` when it has no `src` attribute. */
  datatype Cover = Cover(src: Option<string>)

  /**
   * The book dictionary. `parse_book_page` fills the first five keys;
   * the driver later adds `book_path` and replaces `img_src` by the path
   * of the saved image.
   */
  datatype Book = Book(
    title: string,
    author: string,
    comments: seq<string>,
    genres: seq<string>,
    imgSrc: Option<string>,
    bookPath: Option<string>)

  /** The keys the dictionary holds. */
  function Keys(b: Book): set<string> {
    {"title", "author", "comments", "genres", "img_src"} + (if b.bookPath.Some? then {"book_path"} else {})
  }

  /**
   * Why `parse_book_page` raises: no heading (AttributeError), a heading
   * that does not split into exactly two pieces (ValueError from the
   * tuple unpacking), no cover image (AttributeError).
   */
  datatype ParseFault = NoHeading | BadHeading(pieces: nat) | NoCover

  /** The heading splits on `::` into exactly two pieces. */
  ghost predicate TwoPieceHeading(h: string) {
    HasSep(h) && !HasTwoSeps(h)
  }

  /** No whitespace at either end, as `str.strip()` leaves a text. */
  predicate Trimmed(s: string) {
    s == [] || (!IsSpace(s[0]) && !IsSpace(s[|s| - 1]))
  }

  /**
   * The first statements of `parse_book_page`: split the heading on `::`
   * into exactly two pieces, title and author, each sanitized then
   * stripped. It succeeds exactly when the heading holds a separator but
   * no two that do not overlap; the heading is then the two pieces around
   * that separator.
   */
  function ParseHeading(h: string, sanitize: string -> string): (r: Result<(string, string), ParseFault>)
    ensures r.Success? <==> TwoPieceHeading(h)
    ensures r.Failure? ==> r.error.BadHeading? && r.error.pieces != 2
    ensures r.Success? ==>
      var p := SplitSep(h);
      && |p| == 2 && h == p[0] + Sep + p[1] && !HasSep(p[0]) && !HasSep(p[1])
      && r.value.0 == Strip(sanitize(p[0])) && r.value.1 == Strip(sanitize(p[1]))
    ensures r.Success? ==> Trimmed(r.value.0) && Trimmed(r.value.1)
  {
    var parts := SplitSep(h);
    SplitInTwo(h);
    if |parts| != 2 then
      Failure(BadHeading(|parts|))
    else
      Success((Strip(sanitize(parts[0])), Strip(sanitize(parts[1]))))
  }

  /**
   * `parse_book_page(page)`, with `sanitize` standing for pathvalidate's
   * `sanitize_filename`. It fails on a missing heading, then on a heading
   * that is not two pieces, then on a missing cover; otherwise the book
   * takes its title and author from the heading, keeps every review and
   * every genre in document order, and takes the cover's `src` as it is.
   */
  function ParseBookPage(page: Page, sanitize: string -> string): (r: Result<Book, ParseFault>)
    ensures r.Success? <==> page.heading.Some? && TwoPieceHeading(page.heading.value) && page.cover.Some?
    ensures page.heading.None? ==> r == Failure(NoHeading)
    ensures page.heading.Some? && !TwoPieceHeading(page.heading.value) ==>
      r.Failure? && r.error.BadHeading? && r.error.pieces != 2
    ensures page.heading.Some? && TwoPieceHeading(page.heading.value) && page.cover.None? ==>
      r == Failure(NoCover)
    ensures r.Success? ==>
      && ParseHeading(page.heading.value, sanitize) == Success((r.value.title, r.value.author))
      && r.value.comments == page.reviews
      && r.value.genres == page.genreLinks
      && r.value.imgSrc == page.cover.value.src
      && r.value.bookPath.None?
  {
    match page.heading
    case None => Failure(NoHeading)
    case Some(h) =>
      match ParseHeading(h, sanitize)
      case Failure(fault) => Failure(fault)
      case Success((title, author)) =>
        var comments := page.reviews;
        var genres := page.genreLinks;
        match page.cover
        case None => Failure(NoCover)
        case Some(img) => Success(Book(title, author, comments, genres, img.src, None))
  }

  /** A freshly parsed book holds exactly the five keys `parse_book_page` fills, and no `book_path` yet. */
  lemma ParsedKeys(page: Page, sanitize: string -> string)
    ensures ParseBookPage(page, sanitize).Success? ==>
      Keys(ParseBookPage(page, sanitize).value) == {"title", "author", "comments", "genres", "img_src"}
  {
  }

  /** A text without a colon holds no separator. */
  lemma NoColonNoSep(s: string)
    requires ':' !in s
    ensures !HasSep(s)
  {
    assert forall k :: 0 <= k < |s| ==> s[k] != ':';
  }

  /** A first piece without colons ends at the first separator. */
  lemma SplitsAfter(first: string, rest: string)
    requires ':' !in first
    ensures SplitSep(first + Sep + rest) == [first] + SplitSep(rest)
  {
    var h := first + Sep + rest;
    var i := |first|;
    assert SepAt(h, i);
    forall j | 0 <= j < i
      ensures !SepAt(h, j)
    {
      assert h[j] == first[j];
      assert first[j] in first;
    }
    SplitStep(h, i);
    assert h[..i] == first;
    assert h[i + 2..] == rest;
  }

  /** A title and an author without colons, joined by the separator, split back into the two. */
  lemma JoinedSplits(title: string, author: string)
    requires ':' !in title && ':' !in author
    ensures SplitSep(title + Sep + author) == [title, author]
  {
    SplitsAfter(title, author);
    NoColonNoSep(author);
  }

  /**
   * The heading of a book page written as title, `::`, author gives the
   * two back, each sanitized and stripped.
   */
  lemma HeadingRoundTrip(title: string, author: string, sanitize: string -> string)
    requires ':' !in title && ':' !in author
    ensures ParseHeading(title + Sep + author, sanitize) == Success((Strip(sanitize(title)), Strip(sanitize(author))))
  {
    JoinedSplits(title, author);
  }

  /** A heading without the separator is one piece: the unpacking into title and author fails. */
  lemma HeadingWithoutSep(h: string, sanitize: string -> string)
    requires ':' !in h
    ensures ParseHeading(h, sanitize) == Failure(BadHeading(1))
  {
    NoColonNoSep(h);
  }

  /** A heading with a second separator is three pieces or more: the unpacking fails as well. */
  lemma HeadingWithTwoSeps(title: string, middle: string, author: string, sanitize: string -> string)
    requires ':' !in title && ':' !in middle && ':' !in author
    ensures ParseHeading(title + Sep + middle + Sep + author, sanitize) == Failure(BadHeading(3))
  {
    assert title + Sep + middle + Sep + author == title + Sep + (middle + Sep + author);
    SplitsAfter(title, middle + Sep + author);
    JoinedSplits(middle, author);
  }
}
