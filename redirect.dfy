/**
 * The redirect guard. The site answers a request for a book that does not
 * exist by redirecting to its front page, so a response that went through
 * any redirect means "no such book".
 */
module RedirectGuard {
  import opened Wrappers
  import opened Io

  /** The two fixed pieces of the guard's message ("from page ...", "a redirect happened to page ..."). */
  const FromText: string := "Cо страницы - "
  const ToText: string := "\nпроизошёл редирект на страницу - "

  /** The text of the HTTPError the guard raises. */
  function RedirectMessage(origin: string, final: string): string {
    FromText + origin + ToText + final
  }

  /**
   * `check_for_redirect(response)`: raises HTTPError exactly when the
   * response went through a redirect, naming the first URL it was
   * redirected from and the URL it ended at.
   */
  function CheckForRedirect<T>(r: Response<T>): (c: Outcome<Fault>)
    ensures c.Fail? <==> r.history != []
    ensures c.Fail? ==> c.error == HttpError(RedirectMessage(r.history[0], r.url))
  {
    if r.history != [] then Fail(HttpError(RedirectMessage(r.history[0], r.url))) else Pass
  }

  /** Where the two URLs stand in the message. */
  lemma RedirectMessageLayout(o: string, f: string)
    ensures var m := RedirectMessage(o, f);
      && m[|FromText| + |o|] == '\n'
      && m[|FromText|..|FromText| + |o|] == o
      && m[|FromText| + |o| + |ToText|..] == f
  {
  }

  /**
   * The message gives both URLs back: as long as the first holds no line
   * break, different URL pairs give different messages.
   */
  lemma RedirectMessageDeterminesUrls(o1: string, f1: string, o2: string, f2: string)
    requires '\n' !in o1 && '\n' !in o2
    requires RedirectMessage(o1, f1) == RedirectMessage(o2, f2)
    ensures o1 == o2 && f1 == f2
  {
    var m := RedirectMessage(o1, f1);
    RedirectMessageLayout(o1, f1);
    RedirectMessageLayout(o2, f2);
    if |o1| < |o2| {
      assert false;
    } else if |o2| < |o1| {
      assert false;
    }
    assert o1 == m[|FromText|..|FromText| + |o1|] == o2;
    assert f1 == m[|FromText| + |o1| + |ToText|..] == f2;
  }
}
