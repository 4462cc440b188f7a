/**
 * The ingestion driver `get_books(start_id, end_id)`: one attempt per book
 * id of the range, in ascending order, each on the disk the earlier ones
 * left, until an attempt raises an exception no handler catches.
 */
module Driver {
  import opened Strings
  import opened Io
  import opened Assets
  import opened Attempts

  /** One id's attempt, as it appears in the run. */
  datatype Visit = Visit(id: int, events: seq<Event>, outcome: Outcome)

  /** The attempts made so far and the disk after them. */
  datatype Run = Run(visits: seq<Visit>, disk: Disk)

  /** The run has ended: its last attempt raised an exception nobody caught. */
  predicate Halted(run: Run) {
    |run.visits| > 0 && run.visits[|run.visits| - 1].outcome.Crashed?
  }

  /** How many ids `range(start_id, end_id)` yields. */
  function RangeLength(startId: int, endId: int): nat {
    if endId <= startId then 0 else endId - startId
  }

  /** The loop body as a value: the attempt at one id, given its fetches and the disk before it. */
  type Step = (int, Fetches, Disk) -> Attempt

  /** The loop body of `get_books` under the given library functions. */
  function BodyOf(env: Env): Step {
    (id, f, d) => Process(id, f, env, d)
  }

  /**
   * The run after the first `n` ids of the range, starting from `disk0`:
   * each id is attempted on the disk the previous ones left, until an
   * attempt crashes, after which nothing more happens.
   */
  function RunPrefix(startId: int, n: nat, net: seq<Fetches>, step: Step, disk0: Disk): (run: Run)
    requires n <= |net|
    ensures |run.visits| <= n
    ensures Halted(run) || |run.visits| == n
    ensures forall k :: 0 <= k < |run.visits| ==> run.visits[k].id == startId + k
    ensures forall k :: 0 <= k < |run.visits| - 1 ==> !run.visits[k].outcome.Crashed?
  {
    if n == 0 then Run([], disk0)
    else
      var before := RunPrefix(startId, n - 1, net, step, disk0);
      if Halted(before) then before
      else
        var a := step(startId + n - 1, net[n - 1], before.disk);
        var visits := before.visits + [Visit(startId + n - 1, a.events, a.outcome)];
        assert forall k :: 0 <= k < |before.visits| ==> visits[k] == before.visits[k];
        Run(visits, a.disk)
  }

  /** One more id of the range, while the run has not crashed. */
  lemma RunPrefixStep(startId: int, k: nat, net: seq<Fetches>, step: Step, disk0: Disk)
    requires k < |net|
    requires !Halted(RunPrefix(startId, k, net, step, disk0))
    ensures var before := RunPrefix(startId, k, net, step, disk0);
      var a := step(startId + k, net[k], before.disk);
      RunPrefix(startId, k + 1, net, step, disk0) == Run(before.visits + [Visit(startId + k, a.events, a.outcome)], a.disk)
  {
  }

  /** The effects of a run, in order. */
  function Trace(visits: seq<Visit>): seq<Event> {
    if visits == [] then [] else Trace(visits[..|visits| - 1]) + visits[|visits| - 1].events
  }

  /** Once a run has crashed, looking at more ids changes nothing. */
  lemma {:induction false} HaltedStays(startId: int, k: nat, m: nat, net: seq<Fetches>, step: Step, disk0: Disk)
    requires k <= m <= |net|
    requires Halted(RunPrefix(startId, k, net, step, disk0))
    ensures RunPrefix(startId, m, net, step, disk0) == RunPrefix(startId, k, net, step, disk0)
    decreases m
  {
    if m > k {
      HaltedStays(startId, k, m - 1, net, step, disk0);
    }
  }

  /**
   * The `for` loop of `get_books` over `range(start_id, end_id)`, with
   * `net[k]` standing for what the network answers for id `start_id + k`
   * and `body` for the `try` block with its handlers. The ids are taken
   * in ascending order, and the loop ends early when an attempt raises an
   * exception no handler catches.
   */
  method ForEachId(startId: int, endId: int, net: seq<Fetches>, body: Step, disk: Disk) returns (run: Run)
    requires |net| == RangeLength(startId, endId)
    ensures run == RunPrefix(startId, |net|, net, body, disk)
  {
    run := Run([], disk);
    var k := 0;
    while k < |net|
      invariant k <= |net|
      invariant run == RunPrefix(startId, k, net, body, disk)
      invariant !Halted(run)
    {
      var bookId := startId + k;
      var a := body(bookId, net[k], run.disk);
      RunPrefixStep(startId, k, net, body, disk);
      run := Run(run.visits + [Visit(bookId, a.events, a.outcome)], a.disk);
      if a.outcome.Crashed? {
        HaltedStays(startId, k + 1, |net|, net, body, disk);
        return;
      }
      k := k + 1;
    }
  }

  /**
   * `get_books(start_id, end_id)`: the loop over the range with `Process`
   * as its body. The ids are visited in ascending order, once each, until
   * the end of the range or an uncaught exception; an empty range does
   * nothing; there is one pause per ConnectionError and two printed lines
   * per saved book; and with a sanitizer that never yields `/` nothing is
   * removed and only `books/...` and `images/...` are written.
   */
  method GetBooks(startId: int, endId: int, net: seq<Fetches>, env: Env, disk: Disk) returns (run: Run)
    requires |net| == RangeLength(startId, endId)
    ensures run == RunPrefix(startId, |net|, net, BodyOf(env), disk)
    ensures endId <= startId ==> run == Run([], disk)
    ensures forall k :: 0 <= k < |run.visits| ==> run.visits[k].id == startId + k < endId
    ensures Halted(run) || |run.visits| == |net|
    ensures forall k :: 0 <= k < |run.visits| - 1 ==> !run.visits[k].outcome.Crashed?
    ensures Tallied(run.visits)
    ensures SafeNames(env) ==> WritesUnder(disk, run.disk)
  {
    run := ForEachId(startId, endId, net, BodyOf(env), disk);
    BodyAccounted(env);
    RunCounts(startId, |net|, net, BodyOf(env), disk);
    if SafeNames(env) {
      BodyWritesUnder(env);
      RunWritesUnder(startId, |net|, net, BodyOf(env), disk);
    }
  }

  /**
   * The visit at position `k` of a run is the loop body applied to id
   * `start_id + k`, its answers `net[k]`, and the disk the first `k`
   * visits left, none of which crashed.
   */
  lemma {:induction false} RunVisit(startId: int, n: nat, net: seq<Fetches>, step: Step, disk0: Disk, k: nat)
    requires n <= |net|
    requires k < |RunPrefix(startId, n, net, step, disk0).visits|
    ensures k < n
    ensures var before := RunPrefix(startId, k, net, step, disk0);
      var a := step(startId + k, net[k], before.disk);
      && !Halted(before)
      && |before.visits| == k
      && RunPrefix(startId, n, net, step, disk0).visits[k] == Visit(startId + k, a.events, a.outcome)
  {
    var before := RunPrefix(startId, n - 1, net, step, disk0);
    if Halted(before) || k < |before.visits| {
      RunVisit(startId, n - 1, net, step, disk0, k);
    }
  }

  /** How many of the visits ended with an outcome satisfying `p`. */
  function OutcomeCount(visits: seq<Visit>, p: Outcome -> bool): nat {
    if visits == [] then 0
    else OutcomeCount(visits[..|visits| - 1], p) + (if p(visits[|visits| - 1].outcome) then 1 else 0)
  }

  predicate IsBackedOff(o: Outcome) {
    o.BackedOff?
  }

  predicate IsSaved(o: Outcome) {
    o.Saved?
  }

  /** Every attempt of `step` pauses once when it backs off and prints two lines when it saves. */
  ghost predicate StepAccounted(step: Step) {
    forall id, f, d :: Accounted(step(id, f, d).events, step(id, f, d).outcome)
  }

  lemma BodyAccounted(env: Env)
    ensures StepAccounted(BodyOf(env))
  {
    forall id, f, d
      ensures Accounted(BodyOf(env)(id, f, d).events, BodyOf(env)(id, f, d).outcome)
    {
      ProcessAccounted(id, f, env, d);
    }
  }

  lemma TraceAppend(visits: seq<Visit>, v: Visit)
    ensures Trace(visits + [v]) == Trace(visits) + v.events
  {
    assert (visits + [v])[..|visits|] == visits;
  }

  lemma OutcomeCountAppend(visits: seq<Visit>, v: Visit, p: Outcome -> bool)
    ensures OutcomeCount(visits + [v], p) == OutcomeCount(visits, p) + (if p(v.outcome) then 1 else 0)
  {
    assert (visits + [v])[..|visits|] == visits;
  }

  /** Pauses and printed lines tally with the outcomes. */
  predicate Tallied(visits: seq<Visit>) {
    && CountOf(Trace(visits), IsSleep) == OutcomeCount(visits, IsBackedOff)
    && CountOf(Trace(visits), IsStdout) == 2 * OutcomeCount(visits, IsSaved)
  }

  lemma CountsAppend(visits: seq<Visit>, v: Visit)
    requires Tallied(visits)
    requires Accounted(v.events, v.outcome)
    ensures Tallied(visits + [v])
  {
    TraceAppend(visits, v);
    OutcomeCountAppend(visits, v, IsBackedOff);
    OutcomeCountAppend(visits, v, IsSaved);
    CountConcat(Trace(visits), v.events, IsSleep);
    CountConcat(Trace(visits), v.events, IsStdout);
  }

  /**
   * Over a whole run, `sleep(15)` is called once per id that met a
   * ConnectionError, and two lines are printed per saved book.
   */
  lemma {:induction false} RunCounts(startId: int, n: nat, net: seq<Fetches>, step: Step, disk0: Disk)
    requires n <= |net|
    requires StepAccounted(step)
    ensures Tallied(RunPrefix(startId, n, net, step, disk0).visits)
  {
    if n > 0 {
      RunCounts(startId, n - 1, net, step, disk0);
      var before := RunPrefix(startId, n - 1, net, step, disk0);
      if !Halted(before) {
        RunPrefixStep(startId, n - 1, net, step, disk0);
        var a := step(startId + n - 1, net[n - 1], before.disk);
        assert Accounted(a.events, a.outcome);
        CountsAppend(before.visits, Visit(startId + n - 1, a.events, a.outcome));
      }
    }
  }

  /** Every attempt of `step` only makes or rewrites the two folders and files in them. */
  ghost predicate StepWritesUnder(step: Step) {
    forall id, f, d :: WritesUnder(d, step(id, f, d).disk)
  }

  lemma BodyWritesUnder(env: Env)
    requires SafeNames(env)
    ensures StepWritesUnder(BodyOf(env))
  {
    forall id, f, d
      ensures WritesUnder(d, BodyOf(env)(id, f, d).disk)
    {
      ProcessWritesUnder(id, f, env, d);
    }
  }

  /**
   * A whole run removes no file and writes only `books/...` and
   * `images/...`, whatever the network answers.
   */
  lemma {:induction false} RunWritesUnder(startId: int, n: nat, net: seq<Fetches>, step: Step, disk0: Disk)
    requires n <= |net|
    requires StepWritesUnder(step)
    ensures WritesUnder(disk0, RunPrefix(startId, n, net, step, disk0).disk)
  {
    if n > 0 {
      RunWritesUnder(startId, n - 1, net, step, disk0);
      var before := RunPrefix(startId, n - 1, net, step, disk0);
      if !Halted(before) {
        var a := step(startId + n - 1, net[n - 1], before.disk);
        assert WritesUnder(before.disk, a.disk);
        WritesUnderTrans(disk0, before.disk, a.disk);
      }
    }
  }

  /** Every id of the range answers the text request with a redirect: none of them is a book. */
  predicate AllRedirected(net: seq<Fetches>) {
    forall k :: 0 <= k < |net| ==> net[k].text.Fetched? && net[k].text.response.history != []
  }

  /** The visit of a redirected id: one request, an INFO record and a stderr line, nothing else. */
  predicate SkippedVisit(v: Visit) {
    && v.outcome.Skipped?
    && v.events == [Get(TextUrl(v.id)), Info(InfoText(v.id, v.outcome.message)), Stderr(v.outcome.message + "\n\n")]
  }

  /**
   * On a redirected text request, `step` leaves the disk alone, does not
   * crash, and yields a visit satisfying `ok`.
   */
  ghost predicate StepPassesRedirects(step: Step, ok: Visit -> bool) {
    forall id: int, f: Fetches, d: Disk :: f.text.Fetched? && f.text.response.history != [] ==>
      && ok(Visit(id, step(id, f, d).events, step(id, f, d).outcome))
      && !step(id, f, d).outcome.Crashed?
      && step(id, f, d).disk == d
  }

  lemma BodySkipsRedirects(env: Env)
    ensures StepPassesRedirects(BodyOf(env), SkippedVisit)
  {
    forall id: int, f: Fetches, d: Disk | f.text.Fetched? && f.text.response.history != []
      ensures SkippedVisit(Visit(id, BodyOf(env)(id, f, d).events, BodyOf(env)(id, f, d).outcome))
      ensures !BodyOf(env)(id, f, d).outcome.Crashed?
      ensures BodyOf(env)(id, f, d).disk == d
    {
      TextRedirectSkips(id, f, env, d);
    }
  }

  lemma OkAppend(visits: seq<Visit>, v: Visit, ok: Visit -> bool)
    requires forall k :: 0 <= k < |visits| ==> ok(visits[k])
    requires ok(v)
    ensures forall k :: 0 <= k < |visits| + 1 ==> ok((visits + [v])[k])
  {
    forall k | 0 <= k < |visits| + 1
      ensures ok((visits + [v])[k])
    {
      if k < |visits| {
        assert (visits + [v])[k] == visits[k];
      }
    }
  }

  /**
   * When every id of the range redirects, the run visits each of them,
   * none crashes, the disk ends as it began, and every visit satisfies
   * what `step` promises for a redirect.
   */
  lemma {:induction false} RedirectedRun(startId: int, n: nat, net: seq<Fetches>, step: Step, ok: Visit -> bool, disk0: Disk)
    requires n <= |net| && AllRedirected(net) && StepPassesRedirects(step, ok)
    ensures var run := RunPrefix(startId, n, net, step, disk0);
      && |run.visits| == n
      && run.disk == disk0
      && (forall k :: 0 <= k < n ==> ok(run.visits[k]) && !run.visits[k].outcome.Crashed?)
  {
    if n > 0 {
      RedirectedRun(startId, n - 1, net, step, ok, disk0);
      var before := RunPrefix(startId, n - 1, net, step, disk0);
      assert !Halted(before) by {
        if n - 1 > 0 {
          assert !before.visits[n - 2].outcome.Crashed?;
        }
      }
      RunPrefixStep(startId, n - 1, net, step, disk0);
      var a := step(startId + n - 1, net[n - 1], before.disk);
      var v := Visit(startId + n - 1, a.events, a.outcome);
      assert ok(v) && !v.outcome.Crashed? && a.disk == before.disk;
      OkAppend(before.visits, v, (w: Visit) => ok(w) && !w.outcome.Crashed?);
    }
  }

  /**
   * A range in which every id redirects is walked to its end: each id is
   * skipped after its text request, with its INFO record and stderr line,
   * and nothing is written, printed or slept.
   */
  lemma RedirectedRangeSkips(startId: int, net: seq<Fetches>, env: Env, disk: Disk)
    requires AllRedirected(net)
    ensures var run := RunPrefix(startId, |net|, net, BodyOf(env), disk);
      && |run.visits| == |net|
      && run.disk == disk
      && (forall k :: 0 <= k < |net| ==> SkippedVisit(run.visits[k]))
  {
    BodySkipsRedirects(env);
    RedirectedRun(startId, |net|, net, BodyOf(env), SkippedVisit, disk);
  }
}
