/**
 * Saving a book's text and cover image: the naming rules of
 * `download_image` and `save_text`, with the disk as a value.
 */
module Assets {
  import opened Wrappers
  import opened Strings
  import opened Urls
  import opened Io

  /** The name the site gives its "no picture" placeholder image. */
  const Placeholder: string := "nopic.gif"

  /**
   * The file name `download_image` stores the image at `link` under: the
   * shared placeholder name when the whole URL ends with it, otherwise
   * the book id followed by the extension of the URL's path.
   */
  function ImageName(link: string, bookId: int): (name: string)
    ensures name != [] && '/' !in name
    ensures EndsWith(link, Placeholder) ==> name == Placeholder
    ensures !EndsWith(link, Placeholder) ==>
      && StartsWith(name, IntToString(bookId))
      && name[|IntToString(bookId)|..] == GetFileExtension(link)
      && EndsWith(PathTail(UrlPath(link)), name[|IntToString(bookId)|..])
  {
    if EndsWith(link, Placeholder) then
      Placeholder
    else
      IntToStringPlain(bookId);
      var name := IntToString(bookId) + GetFileExtension(link);
      assert name[|IntToString(bookId)|..] == GetFileExtension(link);
      name
  }

  /** Every book whose cover is the placeholder shares one image file. */
  lemma PlaceholderShared(link: string, a: int, b: int)
    requires EndsWith(link, Placeholder)
    ensures ImageName(link, a) == ImageName(link, b) == Placeholder
  {
  }

  /**
   * Apart from the placeholder, an image name gives back the book id and
   * the extension: two different books never share an image file.
   */
  lemma ImageNameDeterminesId(l1: string, a: int, l2: string, b: int)
    requires !EndsWith(l1, Placeholder) && !EndsWith(l2, Placeholder)
    requires ImageName(l1, a) == ImageName(l2, b)
    ensures a == b && GetFileExtension(l1) == GetFileExtension(l2)
  {
    IntToStringPlain(a);
    IntToStringPlain(b);
    DotFreePrefixUnique(IntToString(a), GetFileExtension(l1), IntToString(b), GetFileExtension(l2));
    IntToStringInjective(a, b);
  }

  /** What saving a text leaves: its effects, the disk after, and the path written. */
  datatype SavedText = SavedText(events: seq<Event>, disk: Disk, path: string)

  lemma TxtKeepsOutSlash(stem: string)
    ensures '/' !in stem ==> '/' !in stem + ".txt"
  {
  }

  /** The file name `save_text` writes to: the given name sanitized, stripped, with `.txt` added. */
  function TextFileName(filename: string, sanitize: string -> string): (name: string)
    ensures name == Strip(sanitize(filename)) + ".txt"
    ensures EndsWith(name, ".txt")
    ensures '/' !in sanitize(filename) ==> '/' !in name
  {
    var stem := Strip(sanitize(filename));
    StripKeepsOut(sanitize(filename), '/');
    TxtKeepsOutSlash(stem);
    stem + ".txt"
  }

  /**
   * `save_text(response, filename, dest_folder, folder)`: makes the folder,
   * then writes the body, already fetched, to the sanitized name; a file
   * of that name is replaced.
   */
  function SaveText(disk: Disk, text: string, filename: string, sanitize: string -> string,
                    destFolder: string := "", folder: string := "books"): (s: SavedText)
    ensures s.path == PathJoin(PathJoin(destFolder, folder), TextFileName(filename, sanitize))
    ensures s.disk.dirs == disk.dirs + {PathJoin(destFolder, folder)}
    ensures s.disk.files == disk.files[s.path := Text(text)]
    ensures s.events == [Wrote(s.path)]
  {
    var dir := PathJoin(destFolder, folder);
    var path := PathJoin(dir, TextFileName(filename, sanitize));
    SavedText([Wrote(path)], WriteFile(MakeDir(disk, dir), path, Text(text)), path)
  }

  lemma FolderNamesPlain()
    ensures "books" != [] && '/' !in "books"
    ensures "images" != [] && '/' !in "images"
  {
  }

  /** The default folders, joined to the default empty destination, stay as they are. */
  lemma FolderPaths()
    ensures PathJoin("", "books") == "books" && PathJoin("", "images") == "images"
  {
  }

  /** A relative name joined under a plain folder name lands directly in that folder. */
  lemma JoinInFolder(folder: string, name: string)
    requires folder != [] && '/' !in folder
    requires name != [] && '/' !in name
    ensures PathJoin(PathJoin("", folder), name) == folder + "/" + name
  {
    assert name[0] in name;
    assert folder[|folder| - 1] in folder;
  }

  /**
   * With the default folders, and a sanitizer that never yields `/`, the
   * text goes to `books/<name>.txt`.
   */
  lemma TextPathInBooks(disk: Disk, text: string, filename: string, sanitize: string -> string)
    requires '/' !in sanitize(filename)
    ensures SaveText(disk, text, filename, sanitize).path == "books" + "/" + TextFileName(filename, sanitize)
  {
    FolderNamesPlain();
    JoinInFolder("books", TextFileName(filename, sanitize));
  }

  /** What downloading an image leaves: its effects, the disk after, and the path written or the exception raised. */
  datatype SavedImage = SavedImage(events: seq<Event>, disk: Disk, result: Result<string, Fault>)

  /**
   * `download_image(img_link, book_id, dest_folder, folder)`: makes the
   * folder, requests the image (no redirect check here), and on success
   * writes its bytes under `ImageName`; a failed request raises and
   * writes nothing, the folder having been made already.
   */
  function DownloadImage(disk: Disk, link: string, bookId: int, fetch: Fetch<seq<byte>>,
                         destFolder: string := "", folder: string := "images"): (d: SavedImage)
    ensures d.disk.dirs == disk.dirs + {PathJoin(destFolder, folder)}
    ensures fetch.Raised? ==> d == SavedImage([Get(link)], MakeDir(disk, PathJoin(destFolder, folder)), Failure(fetch.fault))
    ensures fetch.Fetched? ==>
      var path := PathJoin(PathJoin(destFolder, folder), ImageName(link, bookId));
      && d.result == Success(path)
      && d.events == [Get(link), Wrote(path)]
      && d.disk.files == disk.files[path := Bytes(fetch.response.body)]
  {
    var dir := PathJoin(destFolder, folder);
    var made := MakeDir(disk, dir);
    match fetch
    case Raised(fault) => SavedImage([Get(link)], made, Failure(fault))
    case Fetched(response) =>
      var path := PathJoin(dir, ImageName(link, bookId));
      SavedImage([Get(link), Wrote(path)], WriteFile(made, path, Bytes(response.body)), Success(path))
  }

  /** With the default folders the image goes to `images/<name>`. */
  lemma ImagePathInImages(link: string, bookId: int)
    ensures PathJoin(PathJoin("", "images"), ImageName(link, bookId)) == "images" + "/" + ImageName(link, bookId)
  {
    FolderNamesPlain();
    JoinInFolder("images", ImageName(link, bookId));
  }

  lemma Regroup(a: string, b: string, c: string)
    ensures a + b + c == a + (b + c)
  {
  }

  /**
   * A cover at `scheme://host/dir/stem.ext` that is not the placeholder is
   * stored as `<book id>.ext` (`.../9.jpg` for book 9 gives `9.jpg`).
   */
  lemma ImageNameOfUrl(scheme: string, host: string, dir: string, stem: string, ext: string, bookId: int)
    requires IsSchemeName(scheme) && PlainHost(host) && PlainPath(dir + "/" + (stem + "." + ext))
    requires '/' !in stem + "." + ext
    requires stem != [] && stem[0] != '.' && '.' !in ext
    requires !EndsWith(scheme + "://" + host + (dir + "/" + (stem + "." + ext)), Placeholder)
    ensures ImageName(scheme + "://" + host + (dir + "/" + (stem + "." + ext)), bookId) == IntToString(bookId) + "." + ext
  {
    var url := scheme + "://" + host + (dir + "/" + (stem + "." + ext));
    ExtensionOfUrl(scheme, host, dir, stem + "." + ext);
    ExtAfterDot(stem, ext);
    assert ImageName(url, bookId) == IntToString(bookId) + GetFileExtension(url);
    Regroup(IntToString(bookId), ".", ext);
  }
}
