/**
 * The URL and path helpers `get_file_extension` and the file savers use:
 * the path component of `urllib.parse.urlsplit`, `os.path.split`,
 * `os.path.splitext` and `os.path.join`, all on POSIX paths.
 */
module Urls {
  import opened Wrappers
  import opened Strings

  // ---------------------------------------------------------------------
  // Searching
  // ---------------------------------------------------------------------

  /** The first index at or after `from` whose character lies in `cs`, as `str.find`. */
  function FindAny(s: string, cs: set<char>, from: nat): (r: Option<nat>)
    ensures r.Some? ==> from <= r.value < |s| && s[r.value] in cs
    ensures r.Some? ==> forall k :: from <= k < r.value ==> s[k] !in cs
    ensures r.None? <==> forall k :: from <= k < |s| ==> s[k] !in cs
    decreases |s| - from
  {
    if from >= |s| then None
    else if s[from] in cs then Some(from)
    else FindAny(s, cs, from + 1)
  }

  /** The last index of `c` in `s`, as `str.rfind`. */
  function FindLast(s: string, c: char): (r: Option<nat>)
    ensures r.Some? ==> r.value < |s| && s[r.value] == c
    ensures r.Some? ==> forall k :: r.value < k < |s| ==> s[k] != c
    ensures r.None? <==> c !in s
  {
    if s == [] then None
    else if s[|s| - 1] == c then Some(|s| - 1)
    else FindLast(s[..|s| - 1], c)
  }

  /** A suffix of a text holds no character the text does not hold. */
  lemma SuffixChars(s: string, k: nat, c: char)
    requires k <= |s| && c !in s
    ensures c !in s[k..]
  {
  }

  /** `FindAny` finds the first match: its contract pins the index down. */
  lemma FindAnyIs(s: string, cs: set<char>, from: nat, i: nat)
    requires from <= i < |s| && s[i] in cs
    requires forall k :: from <= k < i ==> s[k] !in cs
    ensures FindAny(s, cs, from) == Some(i)
  {
  }

  // ---------------------------------------------------------------------
  // urlsplit(url).path
  // ---------------------------------------------------------------------

  /** The C0 control characters and the space, which `urlsplit` strips from the front. */
  predicate IsC0OrSpace(c: char) {
    c <= ' '
  }

  function TrimC0(s: string): (r: string)
    ensures |r| <= |s| && r == s[|s| - |r|..]
    ensures r == [] || !IsC0OrSpace(r[0])
  {
    if s != [] && IsC0OrSpace(s[0]) then TrimC0(s[1..]) else s
  }

  /** Tab, carriage return and line feed, which `urlsplit` removes everywhere. */
  predicate IsUnsafe(c: char) {
    c == '\t' || c == '\r' || c == '\n'
  }

  function RemoveUnsafe(s: string): (r: string)
    ensures forall k :: 0 <= k < |r| ==> !IsUnsafe(r[k])
    ensures forall c :: c in r ==> c in s
    ensures (forall k :: 0 <= k < |s| ==> !IsUnsafe(s[k])) ==> r == s
  {
    if s == [] then []
    else (if IsUnsafe(s[0]) then [] else [s[0]]) + RemoveUnsafe(s[1..])
  }

  predicate IsAsciiLetter(c: char) {
    'a' <= c <= 'z' || 'A' <= c <= 'Z'
  }

  /** The characters `urlsplit` accepts in a scheme name. */
  predicate IsSchemeChar(c: char) {
    IsAsciiLetter(c) || '0' <= c <= '9' || c == '+' || c == '-' || c == '.'
  }

  /**
   * The URL after its scheme: the text before the first `:` is a scheme
   * when it is non-empty, starts with an ASCII letter and holds only
   * scheme characters.
   */
  predicate IsSchemeName(name: string) {
    |name| > 0 && IsAsciiLetter(name[0]) && forall k :: 0 <= k < |name| ==> IsSchemeChar(name[k])
  }

  function DropScheme(url: string): (r: string)
    ensures |r| <= |url| && r == url[|url| - |r|..]
  {
    match FindAny(url, {':'}, 0)
    case Some(i) => if IsSchemeName(url[..i]) then url[i + 1..] else url
    case None => url
  }

  /** The URL after its network location: a `//` opens one, which runs to the next `/`, `?` or `#`. */
  function DropNetloc(url: string): (r: string)
    ensures |r| <= |url| && r == url[|url| - |r|..]
  {
    if |url| >= 2 && url[0] == '/' && url[1] == '/' then
      match FindAny(url, {'/', '?', '#'}, 2)
      case Some(d) => url[d..]
      case None => []
    else
      url
  }

  /** The URL before its query and fragment: everything up to the first `?` or `#`. */
  function CutQueryAndFragment(url: string): (r: string)
    ensures StartsWith(url, r)
    ensures '?' !in r && '#' !in r
  {
    match FindAny(url, {'?', '#'}, 0)
    case Some(i) => url[..i]
    case None => url
  }

  /** `urllib.parse.urlsplit(url).path`. */
  function UrlPath(url: string): (path: string)
    ensures '?' !in path && '#' !in path
  {
    CutQueryAndFragment(DropNetloc(DropScheme(RemoveUnsafe(TrimC0(url)))))
  }

  // ---------------------------------------------------------------------
  // os.path.split, os.path.splitext, os.path.join
  // ---------------------------------------------------------------------

  /** `os.path.split(p)[1]`: the part after the last `/`. */
  function PathTail(p: string): (t: string)
    ensures '/' !in t
    ensures EndsWith(p, t)
    ensures |t| < |p| ==> p[|p| - |t| - 1] == '/'
  {
    match FindLast(p, '/')
    case Some(i) => p[i + 1..]
    case None => p
  }

  /** `name` holds a dot with some other character than a dot in front of it. */
  ghost predicate HasExtension(name: string) {
    exists i, k :: 0 <= k < i < |name| && name[i] == '.' && name[k] != '.'
  }

  /**
   * `os.path.splitext(name)[1]` for a name without `/`: the text from the
   * last dot on, unless only dots stand before that dot.
   */
  function SplitExt(name: string): (ext: string)
    ensures ext == [] || (ext[0] == '.' && '.' !in ext[1..])
    ensures EndsWith(name, ext)
    ensures ext != [] <==> HasExtension(name)
  {
    match FindLast(name, '.')
    case None => ""
    case Some(d) =>
      if exists k :: 0 <= k < d && name[k] != '.' then
        assert forall j :: 0 <= j < |name[d..][1..]| ==> name[d..][1..][j] == name[d + 1 + j];
        name[d..]
      else
        ""
  }

  /**
   * `get_file_extension(url)`: the extension of the last segment of the
   * URL's path; the query and the fragment play no part.
   */
  function GetFileExtension(url: string): (ext: string)
    ensures ext == [] || (ext[0] == '.' && '.' !in ext[1..])
    ensures '/' !in ext && '?' !in ext && '#' !in ext
    ensures EndsWith(PathTail(UrlPath(url)), ext)
    ensures ext != [] <==> HasExtension(PathTail(UrlPath(url)))
  {
    var tail := PathTail(UrlPath(url));
    var ext := SplitExt(tail);
    SuffixChars(tail, |tail| - |ext|, '/');
    SuffixChars(UrlPath(url), |UrlPath(url)| - |tail|, '?');
    SuffixChars(UrlPath(url), |UrlPath(url)| - |tail|, '#');
    SuffixChars(tail, |tail| - |ext|, '?');
    SuffixChars(tail, |tail| - |ext|, '#');
    ext
  }

  /** `os.path.join(a, b)` on POSIX: an absolute `b` replaces `a`; otherwise one `/` separates them. */
  function PathJoin(a: string, b: string): (p: string)
    ensures EndsWith(p, b)
    ensures b == [] || b[0] != '/' ==> StartsWith(p, a)
    ensures b != [] && b[0] == '/' ==> p == b
    ensures (b == [] || b[0] != '/') ==> p == a + (if a == [] || a[|a| - 1] == '/' then "" else "/") + b
  {
    if b != [] && b[0] == '/' then b
    else if a == [] || a[|a| - 1] == '/' then a + b
    else a + "/" + b
  }

  // ---------------------------------------------------------------------
  // The query and the fragment do not reach the path
  // ---------------------------------------------------------------------

  lemma {:induction false} TrimC0Append(a: string, c: char, q: string)
    requires !IsC0OrSpace(c)
    ensures TrimC0(a + [c] + q) == TrimC0(a) + [c] + q
  {
    if a == [] {
      assert a + [c] + q == [c] + q;
    } else {
      assert (a + [c] + q)[0] == a[0];
      assert (a + [c] + q)[1..] == a[1..] + [c] + q;
      if IsC0OrSpace(a[0]) {
        TrimC0Append(a[1..], c, q);
      }
    }
  }

  /** One step of `RemoveUnsafe`: the first character, kept or dropped, then the rest. */
  lemma RemoveUnsafeStep(s: string)
    requires s != []
    ensures RemoveUnsafe(s) == (if IsUnsafe(s[0]) then [] else [s[0]]) + RemoveUnsafe(s[1..])
  {
  }

  lemma {:induction false} RemoveUnsafeAppend(a: string, b: string)
    ensures RemoveUnsafe(a + b) == RemoveUnsafe(a) + RemoveUnsafe(b)
  {
    if a != [] {
      var h := if IsUnsafe(a[0]) then [] else [a[0]];
      assert (a + b)[0] == a[0];
      assert (a + b)[1..] == a[1..] + b;
      calc {
        RemoveUnsafe(a + b);
        { RemoveUnsafeStep(a + b); }
        h + RemoveUnsafe(a[1..] + b);
        { RemoveUnsafeAppend(a[1..], b); }
        h + (RemoveUnsafe(a[1..]) + RemoveUnsafe(b));
        (h + RemoveUnsafe(a[1..])) + RemoveUnsafe(b);
        { RemoveUnsafeStep(a); }
        RemoveUnsafe(a) + RemoveUnsafe(b);
      }
    } else {
      assert a + b == b;
    }
  }

  lemma ColonAppendFound(v: string, c: char, w: string, i: nat)
    requires FindAny(v, {':'}, 0) == Some(i)
    ensures FindAny(v + [c] + w, {':'}, 0) == Some(i)
    ensures (v + [c] + w)[..i] == v[..i]
    ensures (v + [c] + w)[i + 1..] == v[i + 1..] + [c] + w
  {
    var x := v + [c] + w;
    assert x[i] == v[i];
    forall k | 0 <= k < i
      ensures x[k] !in {':'}
    {
      assert x[k] == v[k];
    }
    FindAnyIs(x, {':'}, 0, i);
  }

  lemma DropSchemeAppendFound(v: string, c: char, w: string, i: nat)
    requires FindAny(v, {':'}, 0) == Some(i)
    ensures DropScheme(v + [c] + w) == DropScheme(v) + [c] + w
  {
    ColonAppendFound(v, c, w, i);
  }

  lemma DropSchemeAppendMissing(v: string, c: char, w: string)
    requires c == '?' || c == '#'
    requires FindAny(v, {':'}, 0).None?
    ensures DropScheme(v + [c] + w) == v + [c] + w
  {
    var x := v + [c] + w;
    match FindAny(x, {':'}, 0)
    case None =>
    case Some(j) =>
      assert x[|v|] == c;
      assert j > |v|;
      assert x[..j][|v|] == c;
  }

  /** `?` and `#` end a scheme search that has not met a `:`. */
  lemma DropSchemeAppend(v: string, c: char, w: string)
    requires c == '?' || c == '#'
    ensures DropScheme(v + [c] + w) == DropScheme(v) + [c] + w
  {
    match FindAny(v, {':'}, 0)
    case Some(i) => DropSchemeAppendFound(v, c, w, i);
    case None => DropSchemeAppendMissing(v, c, w);
  }

  lemma DropNetlocAppendFound(y: string, c: char, w: string, d: nat)
    requires |y| >= 2 && FindAny(y, {'/', '?', '#'}, 2) == Some(d)
    ensures FindAny(y + [c] + w, {'/', '?', '#'}, 2) == Some(d)
    ensures (y + [c] + w)[d..] == y[d..] + [c] + w
  {
    var x := y + [c] + w;
    assert x[d] == y[d];
    forall k | 2 <= k < d
      ensures x[k] !in {'/', '?', '#'}
    {
      assert x[k] == y[k];
    }
    FindAnyIs(x, {'/', '?', '#'}, 2, d);
  }

  lemma AppendTail(y: string, c: char, w: string)
    ensures (y + [c] + w)[|y|..] == [c] + w
  {
  }

  lemma DropNetlocAppendMissing(y: string, c: char, w: string)
    requires c == '?' || c == '#'
    requires |y| >= 2 && FindAny(y, {'/', '?', '#'}, 2).None?
    ensures FindAny(y + [c] + w, {'/', '?', '#'}, 2) == Some(|y|)
    ensures (y + [c] + w)[|y|..] == [c] + w
  {
    var x := y + [c] + w;
    assert x[|y|] == c;
    forall k | 2 <= k < |y|
      ensures x[k] !in {'/', '?', '#'}
    {
      assert x[k] == y[k];
    }
    FindAnyIs(x, {'/', '?', '#'}, 2, |y|);
    AppendTail(y, c, w);
  }

  /** A network location stops at `?` or `#` at the latest. */
  lemma DropNetlocAppend(y: string, c: char, w: string)
    requires c == '?' || c == '#'
    requires '?' !in y && '#' !in y
    ensures DropNetloc(y + [c] + w) == DropNetloc(y) + [c] + w
  {
    var x := y + [c] + w;
    if |y| >= 2 && y[0] == '/' && y[1] == '/' {
      assert x[0] == '/' && x[1] == '/';
      match FindAny(y, {'/', '?', '#'}, 2)
      case Some(d) => DropNetlocAppendFound(y, c, w, d);
      case None => DropNetlocAppendMissing(y, c, w);
    } else {
      assert |y| == 0 ==> x[0] == c;
      assert |y| == 1 ==> x[1] == c;
      assert |y| >= 2 ==> x[0] == y[0] && x[1] == y[1];
    }
  }

  lemma CutQueryAppend(z: string, c: char, w: string)
    requires c == '?' || c == '#'
    requires '?' !in z && '#' !in z
    ensures CutQueryAndFragment(z + [c] + w) == z
  {
    var x := z + [c] + w;
    assert forall k :: 0 <= k < |z| ==> x[k] == z[k];
    assert forall k :: 0 <= k < |z| ==> z[k] != '?' && z[k] != '#';
    FindAnyIs(x, {'?', '#'}, 0, |z|);
    assert x[..|z|] == z;
  }

  lemma RemoveUnsafeAround(t: string, c: char, q: string)
    requires !IsUnsafe(c)
    ensures RemoveUnsafe(t + [c] + q) == RemoveUnsafe(t) + [c] + RemoveUnsafe(q)
  {
    assert t + [c] + q == t + ([c] + q);
    RemoveUnsafeAppend(t, [c] + q);
    assert RemoveUnsafe([c] + q) == [c] + RemoveUnsafe(q) by {
      assert ([c] + q)[0] == c;
      assert ([c] + q)[1..] == q;
    }
    assert RemoveUnsafe(t) + ([c] + RemoveUnsafe(q)) == RemoveUnsafe(t) + [c] + RemoveUnsafe(q);
  }

  /** The clean-up `urlsplit` starts with keeps a `?` or `#` and what follows it apart. */
  lemma CleanAppend(u: string, c: char, q: string)
    requires c == '?' || c == '#'
    ensures RemoveUnsafe(TrimC0(u + [c] + q)) == RemoveUnsafe(TrimC0(u)) + [c] + RemoveUnsafe(q)
  {
    TrimC0Append(u, c, q);
    RemoveUnsafeAround(TrimC0(u), c, q);
  }

  /** Nor does the clean-up bring in a character the URL did not hold. */
  lemma CleanKeepsOut(u: string, c: char)
    requires c !in u
    ensures c !in RemoveUnsafe(TrimC0(u))
  {
    var t := TrimC0(u);
    SuffixChars(u, |u| - |t|, c);
  }

  /** A text with neither `?` nor `#` has no query or fragment to cut. */
  lemma CutQueryNone(z: string)
    requires '?' !in z && '#' !in z
    ensures CutQueryAndFragment(z) == z
  {
    assert forall k :: 0 <= k < |z| ==> z[k] != '?' && z[k] != '#';
  }

  /** Whatever follows the first `?` or `#` of a URL is query or fragment: it leaves the path alone. */
  lemma PathIgnoresQuery(u: string, c: char, q: string)
    requires c == '?' || c == '#'
    requires '?' !in u && '#' !in u
    ensures UrlPath(u + [c] + q) == UrlPath(u)
  {
    CleanAppend(u, c, q);
    CleanKeepsOut(u, '?');
    CleanKeepsOut(u, '#');
    var v := RemoveUnsafe(TrimC0(u));
    var w := RemoveUnsafe(q);
    DropSchemeAppend(v, c, w);
    var y := DropScheme(v);
    SuffixChars(v, |v| - |y|, '?');
    SuffixChars(v, |v| - |y|, '#');
    DropNetlocAppend(y, c, w);
    var z := DropNetloc(y);
    SuffixChars(y, |y| - |z|, '?');
    SuffixChars(y, |y| - |z|, '#');
    CutQueryAppend(z, c, w);
    CutQueryNone(z);
  }

  /** So the query and the fragment never change the extension. */
  lemma ExtensionIgnoresQuery(u: string, c: char, q: string)
    requires c == '?' || c == '#'
    requires '?' !in u && '#' !in u
    ensures GetFileExtension(u + [c] + q) == GetFileExtension(u)
  {
    PathIgnoresQuery(u, c, q);
  }

  // ---------------------------------------------------------------------
  // The path of an absolute URL
  // ---------------------------------------------------------------------

  /** A host name without a character that ends the network location or that `urlsplit` removes. */
  predicate PlainHost(host: string) {
    forall k :: 0 <= k < |host| ==> host[k] != '/' && host[k] != '?' && host[k] != '#' && !IsUnsafe(host[k])
  }

  /** An absolute path without a query, a fragment, or a character `urlsplit` removes. */
  predicate PlainPath(path: string) {
    && path != [] && path[0] == '/'
    && forall k :: 0 <= k < |path| ==> path[k] != '?' && path[k] != '#' && !IsUnsafe(path[k])
  }

  lemma SchemeDropped(scheme: string, rest: string)
    requires IsSchemeName(scheme)
    ensures DropScheme(scheme + ":" + rest) == rest
  {
    var url := scheme + ":" + rest;
    var i := |scheme|;
    assert url[i] == ':';
    forall k | 0 <= k < i
      ensures url[k] !in {':'}
    {
      assert url[k] == scheme[k];
    }
    FindAnyIs(url, {':'}, 0, i);
    assert url[..i] == scheme;
    assert url[i + 1..] == rest;
  }

  lemma NetlocDropped(host: string, path: string)
    requires PlainHost(host) && PlainPath(path)
    ensures DropNetloc("//" + host + path) == path
  {
    var x := "//" + host + path;
    var d := 2 + |host|;
    assert x[0] == '/' && x[1] == '/';
    assert x[d] == path[0];
    forall k | 2 <= k < d
      ensures x[k] !in {'/', '?', '#'}
    {
      assert x[k] == host[k - 2];
    }
    FindAnyIs(x, {'/', '?', '#'}, 2, d);
    assert x[d..] == path;
  }

  lemma SchemeChars(scheme: string, k: nat)
    requires IsSchemeName(scheme) && k < |scheme|
    ensures !IsUnsafe(scheme[k]) && !IsC0OrSpace(scheme[k])
  {
  }

  /** The clean-up changes nothing in `scheme://host/path`. */
  lemma CleanUrlOf(scheme: string, host: string, path: string)
    requires IsSchemeName(scheme) && PlainHost(host) && PlainPath(path)
    ensures RemoveUnsafe(TrimC0(scheme + "://" + host + path)) == scheme + "://" + host + path
  {
    var url := scheme + "://" + host + path;
    var h := |scheme| + 3;
    forall k | 0 <= k < |url|
      ensures !IsUnsafe(url[k])
    {
      if k < |scheme| {
        assert url[k] == scheme[k];
        SchemeChars(scheme, k);
      } else if k < h {
        assert url[k] == "://"[k - |scheme|];
      } else if k < h + |host| {
        assert url[k] == host[k - h];
      } else {
        assert url[k] == path[k - h - |host|];
      }
    }
    assert url[0] == scheme[0];
    SchemeChars(scheme, 0);
  }

  lemma PlainPathNoQuery(path: string)
    requires PlainPath(path)
    ensures '?' !in path && '#' !in path
  {
    assert forall k :: 0 <= k < |path| ==> path[k] != '?' && path[k] != '#';
  }

  lemma SchemeThenRest(scheme: string, host: string, path: string)
    ensures scheme + "://" + host + path == scheme + ":" + ("//" + host + path)
  {
  }

  /**
   * `urlsplit("scheme://host/path").path` is `/path`: the scheme and the
   * network location are cut off and nothing else changes.
   */
  lemma UrlPathOf(scheme: string, host: string, path: string)
    requires IsSchemeName(scheme) && PlainHost(host) && PlainPath(path)
    ensures UrlPath(scheme + "://" + host + path) == path
  {
    var url := scheme + "://" + host + path;
    var rest := "//" + host + path;
    calc {
      UrlPath(url);
      CutQueryAndFragment(DropNetloc(DropScheme(RemoveUnsafe(TrimC0(url)))));
      { CleanUrlOf(scheme, host, path); }
      CutQueryAndFragment(DropNetloc(DropScheme(url)));
      { SchemeThenRest(scheme, host, path); SchemeDropped(scheme, rest); }
      CutQueryAndFragment(DropNetloc(rest));
      { NetlocDropped(host, path); }
      CutQueryAndFragment(path);
      { PlainPathNoQuery(path); CutQueryNone(path); }
      path;
    }
  }

  /** The last segment of a path is what follows its last `/`. */
  lemma TailAfterSlash(dir: string, name: string)
    requires '/' !in name
    ensures PathTail(dir + "/" + name) == name
  {
    var p := dir + "/" + name;
    assert p[|dir|] == '/';
    assert forall k :: |dir| < k < |p| ==> p[k] == name[k - |dir| - 1];
    assert p[|dir| + 1..] == name;
  }

  /** Splitting off the tail of a join gives back the name joined on, as `os.path.split` undoes `os.path.join`. */
  lemma SplitUndoesJoin(a: string, name: string)
    requires '/' !in name
    ensures PathTail(PathJoin(a, name)) == name
  {
    if a == [] {
    } else if a[|a| - 1] == '/' {
      assert a + name == a[..|a| - 1] + "/" + name;
      TailAfterSlash(a[..|a| - 1], name);
    } else {
      TailAfterSlash(a, name);
    }
  }

  /** The extension of a name is its last dot and what follows (`a.tar.gz` gives `.gz`). */
  lemma ExtAfterDot(stem: string, ext: string)
    requires stem != [] && stem[0] != '.' && '.' !in ext
    ensures SplitExt(stem + "." + ext) == "." + ext
  {
    var n := stem + "." + ext;
    assert n[|stem|] == '.';
    assert forall k :: |stem| < k < |n| ==> n[k] == ext[k - |stem| - 1];
    assert n[0] == stem[0];
    assert n[|stem|..] == "." + ext;
  }

  /** A name without a dot has no extension. */
  lemma NoDotNoExt(name: string)
    requires '.' !in name
    ensures SplitExt(name) == ""
  {
  }

  /**
   * The extension `get_file_extension` finds in `scheme://host/dir/name`
   * is the extension of `name` alone.
   */
  lemma ExtensionOfUrl(scheme: string, host: string, dir: string, name: string)
    requires IsSchemeName(scheme) && PlainHost(host) && PlainPath(dir + "/" + name)
    requires '/' !in name
    ensures GetFileExtension(scheme + "://" + host + (dir + "/" + name)) == SplitExt(name)
  {
    UrlPathOf(scheme, host, dir + "/" + name);
    TailAfterSlash(dir, name);
  }
}
