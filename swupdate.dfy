/** The update coordinator of swupdate.py (`SoftwareUpdate`): the queries
    it delegates to the selected backend, `doUpdate`, which runs the update
    command under the process-wide lock and streams its output to a
    callback, and `tailUpdateLogs`, which follows an update it did not start.

    The child process, the log file and the package manager's liveness are
    not run here: each operation takes what they produce as sequences of
    observations, in the order the code reads them.  A call of the callback
    `cb(text, flag)` is the event `Callback(text, flag)`. */
module SwUpdate {
  import opened Outcomes
  import opened PyStr
  import opened Backends

  /** What an observer of the coordinator sees, in order. */
  datatype Event =
    | Acquire                             // swupdateLock.acquire()
    | Release                             // swupdateLock.release()
    | Launch(cmd: seq<string>)            // subprocess.Popen(cmd, ...)
    | Callback(text: string, flag: bool)  // cb(text, flag)

  /** The update child process as `doUpdate` observes it: the line
      `readline()` returns on each poll that finds it still running, the
      lines `readlines()` returns after it exited, its exit code, and its
      standard error lines. */
  datatype ProcessRun = ProcessRun(
    polled: seq<string>,
    remaining: seq<string>,
    exitCode: int,
    stderrLines: seq<string>)

  /** One callback per chunk of output, each carrying every chunk so far. */
  function Cumulative(chunks: seq<string>): (r: seq<Event>)
    ensures |r| == |chunks|
    ensures forall e :: e in r ==> e.Callback? && !e.flag
    decreases |chunks|
  {
    if chunks == [] then [] else Cumulative(chunks[..|chunks| - 1]) + [Callback(Concat(chunks), false)]
  }

  lemma CumulativeSnoc(chunks: seq<string>, c: string)
    ensures Cumulative(chunks + [c]) == Cumulative(chunks) + [Callback(Concat(chunks + [c]), false)]
  {
    assert (chunks + [c])[..|chunks|] == chunks;
  }

  /** The k-th cumulative callback carries the first k + 1 chunks. */
  lemma {:induction false} CumulativeAt(chunks: seq<string>, k: nat)
    requires k < |chunks|
    ensures Cumulative(chunks)[k] == Callback(Concat(chunks[..k + 1]), false)
    decreases |chunks|
  {
    if k == |chunks| - 1 {
      assert chunks[..k + 1] == chunks;
    } else {
      var front := chunks[..|chunks| - 1];
      CumulativeAt(front, k);
      assert front[..k + 1] == chunks[..k + 1];
    }
  }

  /** Joining a prefix of the chunks gives a prefix of joining them all. */
  lemma ConcatPrefix(chunks: seq<string>, n: nat)
    requires n <= |chunks|
    ensures Concat(chunks[..n]) <= Concat(chunks)
  {
    ConcatAppend(chunks[..n], chunks[n..]);
    assert chunks[..n] + chunks[n..] == chunks;
  }

  lemma Regroup<T>(t: seq<T>, a: seq<T>, b: seq<T>, c: seq<T>, d: seq<T>)
    ensures t + a + b + c + d == t + (a + b + c + d)
  {
  }

  lemma PrefixOfPrefix<T>(s: seq<T>, i: nat, j: nat)
    requires i <= j <= |s|
    ensures s[..j][..i] == s[..i]
  {
  }

  /** Each cumulative callback's text is a prefix of every later one's and
      of the text of all chunks. */
  lemma CumulativeGrows(chunks: seq<string>, i: nat, j: nat)
    requires i <= j < |chunks|
    ensures Cumulative(chunks)[i].text <= Cumulative(chunks)[j].text <= Concat(chunks)
  {
    var a := chunks[..i + 1];
    var b := chunks[..j + 1];
    CumulativeAt(chunks, i);
    CumulativeAt(chunks, j);
    PrefixOfPrefix(chunks, i + 1, j + 1);
    ConcatPrefix(b, i + 1);
    ConcatPrefix(chunks, j + 1);
  }

  /** The last callback of a finished update: all standard output with flag
      true when the exit code is 0, otherwise standard output followed by
      standard error with flag false. */
  function FinalCallback(p: ProcessRun): Event {
    var out := p.polled + p.remaining;
    if p.exitCode == 0 then Callback(Concat(out), true)
    else Callback(Concat(out + p.stderrLines), false)
  }

  /** `doUpdate` gets as far as its final callback: the backend has an update
      template and the child process could be launched. */
  predicate Completes(k: Kind, params: Option<seq<string>>, run: Option<ProcessRun>) {
    UpdateCommand(k, params).Ok? && run.Some?
  }

  /** Everything one `doUpdate` call does that can be observed.  `run` is
      `None` when launching the child process raises. */
  function DoUpdateEvents(k: Kind, params: Option<seq<string>>, run: Option<ProcessRun>): (r: seq<Event>)
    ensures |r| >= 2 && r[0] == Acquire && r[1] == Callback("", false)
  {
    [Acquire, Callback("", false)] +
    match UpdateCommand(k, params)
    case Err(_) => []
    case Ok(cmd) =>
      [Launch(cmd)] +
      match run
      case None => []
      case Some(p) => Cumulative(p.polled) + [Release, FinalCallback(p)]
  }

  /** The events of a `doUpdate` call that completes. */
  lemma DoUpdateEventsCompleted(k: Kind, params: Option<seq<string>>, run: Option<ProcessRun>)
    requires Completes(k, params, run)
    ensures DoUpdateEvents(k, params, run) ==
      [Acquire, Callback("", false), Launch(UpdateCommand(k, params).value)]
        + Cumulative(run.value.polled) + [Release, FinalCallback(run.value)]
  {
  }

  /** The events of a `doUpdate` call that raises: the template lookup
      leaves the lock held after the reset callback, and so does the
      launch. */
  lemma DoUpdateEventsStopped(k: Kind, params: Option<seq<string>>, run: Option<ProcessRun>)
    ensures UpdateCommand(k, params).Err? ==> DoUpdateEvents(k, params, run) == [Acquire, Callback("", false)]
    ensures UpdateCommand(k, params).Ok? && run.None? ==>
      DoUpdateEvents(k, params, run) == [Acquire, Callback("", false), Launch(UpdateCommand(k, params).value)]
  {
  }

  /** The trace `doUpdate` leaves, step by step as it is built, is the
      trace before the call followed by its events. */
  lemma DoUpdateTrace(t: seq<Event>, k: Kind, params: Option<seq<string>>, run: Option<ProcessRun>)
    ensures UpdateCommand(k, params).Err? ==>
      t + [Acquire, Callback("", false)] == t + DoUpdateEvents(k, params, run)
    ensures UpdateCommand(k, params).Ok? && run.None? ==>
      t + [Acquire, Callback("", false)] + [Launch(UpdateCommand(k, params).value)] == t + DoUpdateEvents(k, params, run)
    ensures Completes(k, params, run) ==>
      t + [Acquire, Callback("", false)] + [Launch(UpdateCommand(k, params).value)]
        + Cumulative(run.value.polled) + [Release, FinalCallback(run.value)]
        == t + DoUpdateEvents(k, params, run)
  {
    DoUpdateEventsStopped(k, params, run);
    if Completes(k, params, run) {
      DoUpdateEventsCompleted(k, params, run);
      Regroup(t, [Acquire, Callback("", false)], [Launch(UpdateCommand(k, params).value)],
        Cumulative(run.value.polled), [Release, FinalCallback(run.value)]);
    }
  }

  /** The read loop of `doUpdate`: while the child runs, each line it
      reads is appended to the output so far and the whole of it is passed
      to the callback with flag false. */
  method StreamOutput(polled: seq<string>) returns (calls: seq<Event>)
    ensures calls == Cumulative(polled)
  {
    var msgs: seq<string> := [];
    calls := [];
    var i := 0;
    while i < |polled|
      invariant 0 <= i <= |polled|
      invariant msgs == polled[..i]
      invariant calls == Cumulative(msgs)
    {
      msgs := msgs + [polled[i]];
      assert msgs[..|msgs| - 1] == polled[..i];
      calls := calls + [Callback(Concat(msgs), false)];
      i := i + 1;
    }
    assert msgs == polled;
  }

  /** The lock discipline of `doUpdate`: it is acquired once, first; when
      the update completes it is released once, just before the final
      callback; when the template lookup or the launch raises it is never
      released, and nothing follows the reset callback but the launch. */
  lemma DoUpdateLockDiscipline(k: Kind, params: Option<seq<string>>, run: Option<ProcessRun>)
    ensures var r := DoUpdateEvents(k, params, run);
      && r[0] == Acquire
      && (forall i :: 0 < i < |r| ==> r[i] != Acquire)
      && (Completes(k, params, run) ==>
            && r[|r| - 2] == Release && r[|r| - 1] == FinalCallback(run.value)
            && forall i :: 0 <= i < |r| - 2 ==> r[i] != Release)
      && (!Completes(k, params, run) ==> forall i :: 2 <= i < |r| ==> r[i].Launch?)
  {
    var r := DoUpdateEvents(k, params, run);
    DoUpdateEventsStopped(k, params, run);
    if Completes(k, params, run) {
      var c := Cumulative(run.value.polled);
      DoUpdateEventsCompleted(k, params, run);
      forall i | 3 <= i < |r| - 2
        ensures r[i] != Acquire && r[i] != Release
      {
        assert r[i] == c[i - 3];
        assert c[i - 3] in c;
      }
    }
  }

  /** The callbacks of `doUpdate` after the reset one: they exist only in a
      completed update, and are the cumulative ones followed by the final
      one. */
  lemma DoUpdateCallbackAt(k: Kind, params: Option<seq<string>>, run: Option<ProcessRun>, i: nat)
    requires i < |DoUpdateEvents(k, params, run)| && i != 1
    requires DoUpdateEvents(k, params, run)[i].Callback?
    ensures Completes(k, params, run) && 3 <= i
    ensures i < |DoUpdateEvents(k, params, run)| - 2 ==>
      DoUpdateEvents(k, params, run)[i] == Cumulative(run.value.polled)[i - 3]
    ensures i >= |DoUpdateEvents(k, params, run)| - 2 ==>
      i == |DoUpdateEvents(k, params, run)| - 1 && DoUpdateEvents(k, params, run)[i] == FinalCallback(run.value)
  {
    var r := DoUpdateEvents(k, params, run);
    match UpdateCommand(k, params)
    case Err(_) =>
    case Ok(cmd) =>
      var head := [Acquire, Callback("", false), Launch(cmd)];
      match run
      case None =>
      case Some(p) =>
        var c := Cumulative(p.polled);
        assert r == head + c + [Release, FinalCallback(p)];
  }

  /** The final text starts with all the output read while the child ran. */
  lemma FinalTextExtends(p: ProcessRun)
    ensures Concat(p.polled) <= FinalCallback(p).text
  {
    var out := p.polled + p.remaining;
    ConcatPrefix(out, |p.polled|);
    assert out[..|p.polled|] == p.polled;
    ConcatPrefix(out + p.stderrLines, |out|);
    assert (out + p.stderrLines)[..|out|] == out;
  }

  /** The callback texts of `doUpdate` only grow: the first is empty, each
      one is a prefix of every later one, the final one included. */
  lemma DoUpdateTextsGrow(k: Kind, params: Option<seq<string>>, run: Option<ProcessRun>, i: nat, j: nat)
    requires var r := DoUpdateEvents(k, params, run);
      i < j < |r| && r[i].Callback? && r[j].Callback?
    ensures var r := DoUpdateEvents(k, params, run);
      r[i].text <= r[j].text
  {
    var r := DoUpdateEvents(k, params, run);
    if i == 1 {
      assert r[i].text == "";
    } else {
      DoUpdateCallbackAt(k, params, run, i);
      DoUpdateCallbackAt(k, params, run, j);
      var p := run.value;
      CumulativeGrows(p.polled, i - 3, if j < |r| - 2 then j - 3 else i - 3);
      if j >= |r| - 2 {
        FinalTextExtends(p);
        assert r[i].text <= Concat(p.polled) <= r[j].text;
      }
    }
  }

  /** The final callback of a completed update: its flag is true exactly when
      the exit code is 0, and its text is all standard output, followed by
      all standard error on failure. */
  lemma DoUpdateFinal(k: Kind, params: Option<seq<string>>, run: Option<ProcessRun>)
    requires Completes(k, params, run)
    ensures var r := DoUpdateEvents(k, params, run);
      var p := run.value;
      && r[|r| - 1].Callback?
      && r[|r| - 1].flag == (p.exitCode == 0)
      && r[|r| - 1].text ==
           Concat(p.polled) + Concat(p.remaining) + (if p.exitCode == 0 then "" else Concat(p.stderrLines))
  {
    var p := run.value;
    DoUpdateLockDiscipline(k, params, run);
    ConcatAppend(p.polled, p.remaining);
    ConcatAppend(p.polled + p.remaining, p.stderrLines);
  }

  /** `k` asterisks. */
  function Stars(n: nat): (r: string)
    ensures |r| == n
  {
    seq(n, _ => '*')
  }

  /** The liveness markers of `tailUpdateLogs`: one callback per poll, the
      k-th carrying k asterisks. */
  function StarProgress(n: nat): (r: seq<Event>)
    ensures |r| == n
  {
    if n == 0 then [] else StarProgress(n - 1) + [Callback(Stars(n), false)]
  }

  lemma {:induction false} StarProgressAt(n: nat, k: nat)
    requires k < n
    ensures StarProgress(n)[k] == Callback(Stars(k + 1), false)
  {
    if k < n - 1 {
      StarProgressAt(n - 1, k);
    }
  }

  /** Index of the first false answer of `isRunning()`. */
  function FirstFalse(running: seq<bool>): (n: nat)
    requires exists i :: 0 <= i < |running| && !running[i]
    ensures n < |running| && !running[n]
    ensures forall j :: 0 <= j < n ==> running[j]
  {
    if !running[0] then 0
    else
      assert forall i :: 1 <= i < |running| ==> running[1..][i - 1] == running[i];
      1 + FirstFalse(running[1..])
  }

  /** One iteration of the log-following loop: what `os.read` returned, and
      the answer `isRunning()` gives when that read was empty. */
  type LogPoll = (string, bool)

  /** The loop of `tailUpdateLogs` ends on an empty read while the package
      manager is no longer running. */
  predicate Stops(p: LogPoll) {
    p.0 == "" && !p.1
  }

  function StopIndex(polls: seq<LogPoll>): (n: nat)
    requires exists i :: 0 <= i < |polls| && Stops(polls[i])
    ensures n < |polls| && Stops(polls[n])
    ensures forall j :: 0 <= j < n ==> !Stops(polls[j])
  {
    if Stops(polls[0]) then 0
    else
      assert forall i :: 1 <= i < |polls| ==> polls[1..][i - 1] == polls[i];
      1 + StopIndex(polls[1..])
  }

  /** The non-empty reads among the polls, in order. */
  function Reads(ps: seq<LogPoll>): seq<string>
    decreases |ps|
  {
    if ps == [] then []
    else Reads(ps[..|ps| - 1]) + (if ps[|ps| - 1].0 != "" then [ps[|ps| - 1].0] else [])
  }

  /** The number of polls before the first non-empty read. */
  function LeadingIdle(ps: seq<LogPoll>): (n: nat)
    ensures n <= |ps|
    decreases |ps|
  {
    if ps == [] || ps[0].0 != "" then 0 else 1 + LeadingIdle(ps[1..])
  }

  lemma {:induction false} ReadsEmpty(ps: seq<LogPoll>)
    ensures Reads(ps) == [] <==> forall j :: 0 <= j < |ps| ==> ps[j].0 == ""
    decreases |ps|
  {
    if ps != [] {
      ReadsEmpty(ps[..|ps| - 1]);
    }
  }

  /** Appending a poll adds one to the idle count exactly when nothing has
      been read yet and the new poll reads nothing either. */
  lemma {:induction false} LeadingIdleSnoc(ps: seq<LogPoll>, p: LogPoll)
    ensures LeadingIdle(ps + [p]) ==
      if Reads(ps) == [] && p.0 == "" then LeadingIdle(ps) + 1 else LeadingIdle(ps)
    decreases |ps|
  {
    ReadsEmpty(ps);
    if ps == [] {
    } else if ps[0].0 != "" {
      assert (ps + [p])[0] == ps[0];
    } else {
      assert (ps + [p])[1..] == ps[1..] + [p];
      LeadingIdleSnoc(ps[1..], p);
      ReadsEmpty(ps[1..]);
      assert forall j :: 1 <= j < |ps| ==> ps[1..][j - 1] == ps[j];
    }
  }

  /** What the selected backend answers (the unseen parsers and caches of
      Yum, Dnf, Apt and Portage, or the Zypper parsers): the update list, and
      the metadata and dependencies of a package by name. */
  datatype BackendAnswers = BackendAnswers(
    packagesList: Result<seq<Package>>,
    packageInfo: string -> Result<PackageInfo>,
    packageDeps: string -> Result<seq<string>>)

  /** `getUpdates`: the backend's update list. */
  function GetUpdates(b: BackendAnswers): Result<seq<Package>> {
    b.packagesList
  }

  /** `getNumOfUpdates`: the length of `getUpdates()`, or its error. */
  function GetNumOfUpdates(b: BackendAnswers): (r: Result<nat>)
    ensures r.Ok? <==> GetUpdates(b).Ok?
    ensures r.Ok? ==> r.value == |GetUpdates(b).value|
    ensures r.Err? ==> r.error == GetUpdates(b).error
  {
    var pkgs :- GetUpdates(b);
    Ok(|pkgs|)
  }

  /** `getUpdate`: the backend's metadata for `name`; an empty answer is a
      not-found error, and an error of the backend propagates. */
  function GetUpdate(b: BackendAnswers, name: string): (r: Result<PackageInfo>)
    ensures r.Ok? ==> r.value != map[] && r == b.packageInfo(name)
    ensures b.packageInfo(name) == Ok(map[]) ==> r == Err(NotFound("GGBPKGUPD0002E", name))
    ensures b.packageInfo(name).Err? ==> r == b.packageInfo(name)
  {
    var package :- b.packageInfo(name);
    if package == map[] then Err(NotFound("GGBPKGUPD0002E", name)) else Ok(package)
  }

  /** `getPackageDeps`: checks the name with `getUpdate` first; only a name
      that passes reaches the backend's dependency query. */
  function GetPackageDeps(b: BackendAnswers, name: string): (r: Result<seq<string>>)
    ensures GetUpdate(b, name).Err? ==> r == Err(GetUpdate(b, name).error)
    ensures GetUpdate(b, name).Ok? ==> r == b.packageDeps(name)
  {
    var _ :- GetUpdate(b, name);
    b.packageDeps(name)
  }

  /** Whatever the dependency query would answer, a name `getUpdate`
      rejects gets the same error: the query is never consulted. */
  lemma DepsNotQueriedForMissingPackage(b: BackendAnswers, name: string, other: string -> Result<seq<string>>)
    requires GetUpdate(b, name).Err?
    ensures GetPackageDeps(b.(packageDeps := other), name) == GetPackageDeps(b, name)
  {
  }

  /** `tailUpdateLogs` when the log file cannot be opened: one asterisk
      more per poll while the package manager runs, then the asterisks and
      a line break as the final callback. */
  method WaitForManager(running: seq<bool>) returns (calls: seq<Event>)
    requires exists i :: 0 <= i < |running| && !running[i]
    ensures var n := FirstFalse(running);
      calls == StarProgress(n) + [Callback(Stars(n) + "\n", true)]
  {
    calls := [];
    var stars := 0;
    while running[stars]
      invariant stars <= FirstFalse(running)
      invariant calls == StarProgress(stars)
      decreases FirstFalse(running) - stars
    {
      stars := stars + 1;
      calls := calls + [Callback(Stars(stars), false)];
    }
    calls := calls + [Callback(Stars(stars) + "\n", true)];
  }

  /** Appending a poll appends its read, when it read something. */
  lemma ReadsSnoc(ps: seq<LogPoll>, p: LogPoll)
    ensures Reads(ps + [p]) == Reads(ps) + if p.0 != "" then [p.0] else []
  {
    assert (ps + [p])[..|ps|] == ps;
  }

  lemma TakeSnoc<T>(s: seq<T>, i: nat)
    requires i < |s|
    ensures s[..i + 1] == s[..i] + [s[i]]
  {
  }

  /** While nothing has been read, an idle poll appends one more asterisk. */
  lemma IdleStep(progress: nat)
    ensures StarProgress(progress) + Cumulative([]) + [Callback(Stars(progress + 1), false)] ==
      StarProgress(progress + 1) + Cumulative([])
  {
    assert StarProgress(progress) + Cumulative([]) == StarProgress(progress);
  }

  /** A read appends the callback with everything read so far. */
  lemma ReadStep(progress: nat, msgs: seq<string>, read: string)
    ensures StarProgress(progress) + Cumulative(msgs) + [Callback(Concat(msgs + [read]), false)] ==
      StarProgress(progress) + Cumulative(msgs + [read])
  {
    CumulativeSnoc(msgs, read);
  }

  /** `tailUpdateLogs` following the log: asterisks while nothing has been
      read, then after each read the whole text read so far, and that text
      with the final flag when an empty read finds the manager stopped. */
  method FollowLog(polls: seq<LogPoll>) returns (calls: seq<Event>)
    requires exists i :: 0 <= i < |polls| && Stops(polls[i])
    ensures var ps := polls[..StopIndex(polls)];
      calls == StarProgress(LeadingIdle(ps)) + Cumulative(Reads(ps)) + [Callback(Concat(Reads(ps)), true)]
  {
    calls := [];
    var msgs: seq<string> := [];
    var progress := 0;
    var i := 0;
    while true
      invariant i <= StopIndex(polls)
      invariant msgs == Reads(polls[..i]) && progress == LeadingIdle(polls[..i])
      invariant calls == StarProgress(progress) + Cumulative(msgs)
      decreases StopIndex(polls) - i
    {
      var (read, stillRunning) := polls[i];
      TakeSnoc(polls, i);
      ReadsSnoc(polls[..i], polls[i]);
      LeadingIdleSnoc(polls[..i], polls[i]);
      if read == "" {
        if !stillRunning {
          break;
        }
        if msgs == [] {
          IdleStep(progress);
          progress := progress + 1;
          calls := calls + [Callback(Stars(progress), false)];
        }
        i := i + 1;
        continue;
      }
      ReadStep(progress, msgs, read);
      msgs := msgs + [read];
      calls := calls + [Callback(Concat(msgs), false)];
      i := i + 1;
    }
    calls := calls + [Callback(Concat(msgs), true)];
  }

  /** `SoftwareUpdate`: the selected backend and the process-wide update
      lock.  `lockDepth` is the recursion level of the re-entrant lock as
      seen by one thread; `trace` records what the object has done. */
  class SoftwareUpdate {
    const backend: Kind
    var lockDepth: nat
    var trace: seq<Event>

    /** The object built once the backend is selected (`SelectBackend`). */
    constructor (backend: Kind)
      ensures this.backend == backend && lockDepth == 0 && trace == []
    {
      this.backend := backend;
      lockDepth := 0;
      trace := [];
    }

    /** `doUpdate(cb, params)`: takes the lock, resets the callback, runs
        the update command and reports its output.  On a completed run the
        lock is released before the final callback; when the template lookup
        or the launch raises, the lock stays held. */
    method DoUpdate(params: Option<seq<string>>, run: Option<ProcessRun>) returns (r: Result<()>)
      modifies this
      ensures trace == old(trace) + DoUpdateEvents(backend, params, run)
      ensures r.Ok? <==> Completes(backend, params, run)
      ensures r.Err? ==> r.error == if backend == Portage then Raised("KeyError") else Raised("OSError")
      ensures lockDepth == if r.Ok? then old(lockDepth) else old(lockDepth) + 1
    {
      lockDepth := lockDepth + 1;
      DoUpdateTrace(old(trace), backend, params, run);
      trace := trace + [Acquire, Callback("", false)];
      var cmd := UpdateCommand(backend, params);
      if cmd.Err? {
        return Err(cmd.error);
      }
      trace := trace + [Launch(cmd.value)];
      if run.None? {
        return Err(Raised("OSError"));
      }
      ReportRun(run.value);
      r := Ok(());
    }

    /** The part of `doUpdate` after the launch: the output read while the
        child runs, then the lock released and the final callback. */
    method ReportRun(p: ProcessRun)
      requires lockDepth > 0
      modifies this
      ensures trace == old(trace) + Cumulative(p.polled) + [Release, FinalCallback(p)]
      ensures lockDepth == old(lockDepth) - 1
    {
      var progress := StreamOutput(p.polled);
      trace := trace + progress;
      var msgs := p.polled + p.remaining;
      lockDepth := lockDepth - 1;
      if p.exitCode != 0 {
        msgs := msgs + p.stderrLines;
      }
      trace := trace + [Release, Callback(Concat(msgs), p.exitCode == 0)];
    }

    /** `tailUpdateLogs(cb, params)`: follows an update started elsewhere.
        `runningAtStart` is the first `isRunning()` answer and `logOpens`
        whether the backend's log file opens.  Without a log, `running`
        holds the later `isRunning()` answers; with one, `polls` holds each
        read and, for an empty read, the `isRunning()` answer.  It never
        takes the lock and changes nothing; it returns the callbacks made. */
    method TailUpdateLogs(runningAtStart: bool, logOpens: bool, running: seq<bool>, polls: seq<LogPoll>)
      returns (calls: seq<Event>)
      requires runningAtStart && !logOpens ==> exists i :: 0 <= i < |running| && !running[i]
      requires runningAtStart && logOpens ==> exists i :: 0 <= i < |polls| && Stops(polls[i])
      ensures !runningAtStart ==> calls == []
      ensures runningAtStart && !logOpens ==>
        var n := FirstFalse(running);
        calls == StarProgress(n) + [Callback(Stars(n) + "\n", true)]
      ensures runningAtStart && logOpens ==>
        var ps := polls[..StopIndex(polls)];
        calls == StarProgress(LeadingIdle(ps)) + Cumulative(Reads(ps)) + [Callback(Concat(Reads(ps)), true)]
    {
      if !runningAtStart {
        return [];
      }
      if !logOpens {
        calls := WaitForManager(running);
      } else {
        calls := FollowLog(polls);
      }
    }
  }
}
