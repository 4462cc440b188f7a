/**
 * What the scraper sees of the world outside it: HTTP responses and the
 * exceptions a request raises, the files it writes, and the effects it
 * leaves behind (requests, log lines, output, pauses).
 */
module Io {
  newtype byte = x: int | 0 <= x < 256

  /** The exceptions of the `requests` library that reach the scraper. */
  datatype Fault =
    | HttpError(message: string)        // requests.exceptions.HTTPError: a non-2xx status, or a redirect the guard detected
    | ConnectionError(message: string)  // requests.exceptions.ConnectionError, ConnectTimeout included
    | OtherError(message: string)       // any other exception (ReadTimeout, InvalidURL, ...): caught nowhere

  /**
   * A completed response: its final URL, the URLs of the responses it was
   * redirected through (`response.history`), and its body.
   */
  datatype Response<T> = Response(url: string, history: seq<string>, body: T)

  /** What one `requests.get(...)` followed by `raise_for_status()` gives back. */
  datatype Fetch<T> = Fetched(response: Response<T>) | Raised(fault: Fault)

  datatype Content = Text(text: string) | Bytes(data: seq<byte>)

  /** The directories and files under the working directory. */
  datatype Disk = Disk(dirs: set<string>, files: map<string, Content>)

  /** `Path(path).mkdir(parents=True, exist_ok=True)`. */
  function MakeDir(disk: Disk, path: string): (d: Disk)
    ensures d.files == disk.files && d.dirs == disk.dirs + {path}
  {
    disk.(dirs := disk.dirs + {path})
  }

  /** Opening `path` for writing and writing `content`: the file is replaced, never appended to. */
  function WriteFile(disk: Disk, path: string, content: Content): (d: Disk)
    ensures d.dirs == disk.dirs && d.files == disk.files[path := content]
  {
    disk.(files := disk.files[path := content])
  }

  /** The observable effects of a run, in the order they happen. */
  datatype Event =
    | Get(url: string)         // an HTTP GET is sent
    | Wrote(path: string)      // a file is written
    | Info(message: string)    // a log record at level INFO
    | Warning(message: string) // a log record at level WARNING
    | Stderr(text: string)     // text written to standard error
    | Sleep(seconds: nat)      // the process pauses
    | Stdout(text: string)     // text printed to standard output
}
