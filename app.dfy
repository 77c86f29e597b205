/** The request handlers of app.py that hold the dashboard's logic: the
    global `test_running` flag with `run_tests` and `stop_test`, the fan-out
    of a command to every Raspberry Pi (`run_command`), and the discovery of
    live hosts (`index`). Each handler starts one thread per host and joins
    them all before answering, and each fan-out is modelled as a loop over
    the hosts. In `index` and `run_command` the join is a barrier and every
    thread writes only its own host's key, so the loop builds the same
    dictionary; the collectors of `run_tests` all read the global flag
    instead, and the model gives them one shared flag sequence. */
module Dashboard {

  import opened Options
  import opened Remote
  import opened Collector

  /** `rpi_hostnames`. */
  const RpiHostnames: seq<string> := ["rpi1.local", "rpi2.local"]

  const PingCommand := "echo 'ping'"
  const HostnameCommand := "hostname"

  /** What `run_command` reports for a host whose output is falsy. */
  const NoResult := "No result or connection error"

  /** What another request does to `test_running` while a run is in
      progress: before the first flag check, or while a collector sleeps. */
  datatype Request = NoRequest | StartRequest | StopRequest

  /** The flag after one such request: `run_tests` sets it, `stop_test`
      clears it, and neither looks at its previous value. */
  function AfterRequest(running: bool, r: Request): (after: bool)
    ensures r == StopRequest ==> !after
    ensures r == StartRequest ==> after
    ensures r == NoRequest ==> after == running
  {
    match r
    case NoRequest => running
    case StartRequest => true
    case StopRequest => false
  }

  /** The flag after the first `k` requests of a run, when it was `start`
      before them. */
  function FlagAt(start: bool, requests: nat -> Request, k: nat): (running: bool)
    ensures k == 0 ==> running == start
    ensures k > 0 && requests(k - 1) == StopRequest ==> !running
    ensures k > 0 && requests(k - 1) == StartRequest ==> running
  {
    if k == 0 then start else AfterRequest(FlagAt(start, requests, k - 1), requests(k - 1))
  }

  /** The flag as the collectors of one run see it, pass by pass.
      `run_tests` has just set it; `requests(0)` is served before the check
      of pass 0, and `requests(k + 1)` during the sleep after pass `k`, so
      the check of pass `k` reads the flag after `k + 1` requests. */
  function Trajectory(requests: nat -> Request): (t: nat -> bool)
    ensures forall k: nat :: requests(k) == StopRequest ==> !t(k)
    ensures requests(0) != StopRequest ==> t(0)
  {
    (k: nat) => FlagAt(true, requests, k + 1)
  }

  /** Without requests from elsewhere the flag keeps its value: app.py never
      clears it when a run finishes on its own. */
  lemma {:induction false} QuietKeepsFlag(start: bool, requests: nat -> Request, k: nat)
    requires forall j :: 0 <= j < k ==> requests(j) == NoRequest
    ensures FlagAt(start, requests, k) == start
  {
    if k > 0 {
      QuietKeepsFlag(start, requests, k - 1);
    }
  }

  /** After a stop, the flag stays false until some later start. */
  lemma {:induction false} StopHolds(start: bool, requests: nat -> Request, k: nat, m: nat)
    requires requests(k) == StopRequest && k < m
    requires forall j :: k < j < m ==> requests(j) != StartRequest
    ensures !FlagAt(start, requests, m)
    decreases m
  {
    if m > k + 1 {
      StopHolds(start, requests, k, m - 1);
    }
  }

  /** `stop_test` takes effect at the next flag check: a stop served before
      the check of pass `k` leaves at most `k` rows, whatever comes after
      it, since a collector that reads false has left its loop. */
  lemma StopEndsCollection(requests: nat -> Request, numRuns: int, k: nat)
    requires requests(k) == StopRequest
    ensures Passes(numRuns, Trajectory(requests)) <= k
  {
    StopHolds(true, requests, k, k + 1);
    assert !Trajectory(requests)(k);
  }

  /** A stop served between `run_tests` setting the flag and the first check
      leaves every host without a row. */
  lemma EarlyStopCollectsNothing(requests: nat -> Request, numRuns: int, clock: nat -> Stamp)
    requires requests(0) == StopRequest
    ensures Collected(numRuns, Trajectory(requests), clock) == []
  {
    StopEndsCollection(requests, numRuns, 0);
  }

  /** Nothing guards `run_tests` against a second start: a start served after
      a stop sets the flag again (see `RestartDoesNotResume` for what that
      does to the collectors that already read the stop). */
  lemma RestartRevives(start: bool, requests: nat -> Request, k: nat)
    requires requests(k) == StopRequest && requests(k + 1) == StartRequest
    ensures !FlagAt(start, requests, k + 1) && FlagAt(start, requests, k + 2)
  {
  }

  /** A start that comes right behind a stop does not bring the collectors
      back: they read false at the check after the stop and returned. */
  lemma RestartDoesNotResume(requests: nat -> Request, numRuns: int, k: nat)
    requires requests(k) == StopRequest && requests(k + 1) == StartRequest
    ensures FlagAt(true, requests, k + 2)
    ensures Passes(numRuns, Trajectory(requests)) <= k
  {
    RestartRevives(true, requests, k);
    StopEndsCollection(requests, numRuns, k);
  }

  /** The process-wide state of app.py. */
  class App {
    /** `rpi_hostnames`: the configured hosts. */
    const hostnames: seq<string>
    /** `test_running`. */
    var testRunning: bool

    constructor ()
      ensures hostnames == RpiHostnames && !testRunning
    {
      hostnames := RpiHostnames;
      testRunning := false;
    }

    /** `stop_test`: clears the flag whatever it was. */
    method StopTest()
      modifies this
      ensures testRunning == AfterRequest(old(testRunning), StopRequest)
      ensures !testRunning
    {
      testRunning := false;
    }

    /** Applies one request served by another handler. */
    method Serve(r: Request)
      modifies this
      ensures testRunning == AfterRequest(old(testRunning), r)
    {
      match r
      case NoRequest =>
      case StartRequest =>
        testRunning := true;
      case StopRequest =>
        StopTest();
    }

    /** `run_tests()`: sets the flag (even when a run is already in
        progress), then reads the duration, derives `num_runs` and collects
        rows for every host. `duration` is `int(request.form.get('duration'))`,
        `None` when that raises: the flag has been set by then and stays set,
        and no collector starts. `requests` are the requests other handlers
        serve before the collectors' first check and while they sleep; `clock(h)` times host `h`'s passes.
        The rows are what the spreadsheet writer receives. */
    method RunTests(duration: Option<int>, requests: nat -> Request, clock: string -> nat -> Stamp)
      returns (rows: Option<map<string, seq<Entry>>>)
      modifies this
      ensures duration.None? ==> rows.None? && testRunning
      ensures duration.Some? ==> rows.Some? && rows.value.Keys == set h | h in hostnames
      ensures duration.Some? ==> forall h :: h in rows.value ==>
        rows.value[h] == Collected(NumRuns(duration.value), Trajectory(requests), clock(h))
      ensures duration.Some? ==>
        testRunning == FlagAt(true, requests, Passes(NumRuns(duration.value), Trajectory(requests)) + 1)
    {
      testRunning := true;
      if duration.None? {
        return None;
      }
      var numRuns := NumRuns(duration.value);
      var running := Trajectory(requests);
      var byHost := map[];
      var i := 0;
      while i < |hostnames|
        invariant 0 <= i <= |hostnames|
        invariant testRunning
        invariant byHost.Keys == set h | h in hostnames[..i]
        invariant forall h :: h in byHost ==> byHost[h] == Collected(numRuns, running, clock(h))
      {
        var data := CollectData(hostnames[i], numRuns, RunIntervalSeconds, running, clock(hostnames[i]));
        byHost := byHost[hostnames[i] := data];
        assert hostnames[..i + 1] == hostnames[..i] + [hostnames[i]];
        i := i + 1;
      }
      assert hostnames[..i] == hostnames;
      // The requests served before the first check and during the sleeps,
      // up to the collectors' return.
      var k := 0;
      var passes := Passes(numRuns, running);
      while k < passes + 1
        invariant 0 <= k <= passes + 1
        invariant testRunning == FlagAt(true, requests, k)
      {
        Serve(requests(k));
        k := k + 1;
      }
      rows := Some(byHost);
    }

    /** `run_command`: every host gets an answer, its output when that is
        truthy and the fixed error text otherwise. A missing command fails in
        the session, like an unreachable host. */
    method RunCommand(exec: Executor, command: Option<string>) returns (results: map<string, string>)
      ensures results.Keys == set h | h in hostnames
      ensures forall h :: h in results && Truthy(CommandOutput(exec, h, command)) ==>
        results[h] == CommandOutput(exec, h, command).value
      ensures forall h :: h in results && !Truthy(CommandOutput(exec, h, command)) ==>
        results[h] == NoResult
      ensures forall h :: h in results ==> results[h] != ""
    {
      results := map[];
      var i := 0;
      while i < |hostnames|
        invariant 0 <= i <= |hostnames|
        invariant results.Keys == set h | h in hostnames[..i]
        invariant forall h :: h in results ==>
          results[h] == if Truthy(CommandOutput(exec, h, command)) then CommandOutput(exec, h, command).value else NoResult
      {
        var hostname := hostnames[i];
        var result := CommandOutput(exec, hostname, command);
        if Truthy(result) {
          results := results[hostname := result.value];
        } else {
          results := results[hostname := NoResult];
        }
        assert hostnames[..i + 1] == hostnames[..i] + [hostname];
        i := i + 1;
      }
      assert hostnames[..i] == hostnames;
    }

    /** `index`: the hosts that answer the ping, each with the output of
        `hostname` (which may itself have failed). */
    method Index(exec: Executor) returns (active: map<string, Option<string>>)
      ensures forall h :: h in active <==> h in hostnames && Truthy(exec(h, PingCommand))
      ensures forall h :: h in active ==> active[h] == exec(h, HostnameCommand)
    {
      active := map[];
      var i := 0;
      while i < |hostnames|
        invariant 0 <= i <= |hostnames|
        invariant forall h :: h in active <==> h in hostnames[..i] && Truthy(exec(h, PingCommand))
        invariant forall h :: h in active ==> active[h] == exec(h, HostnameCommand)
      {
        var hostname := hostnames[i];
        if Truthy(exec(hostname, PingCommand)) {
          active := active[hostname := exec(hostname, HostnameCommand)];
        }
        assert hostnames[..i + 1] == hostnames[..i] + [hostname];
        i := i + 1;
      }
      assert hostnames[..i] == hostnames;
    }
  }

  /** `run_ssh_command(hostname, command)` for the form's `command`, which is
      `None` when the field is missing. */
  function CommandOutput(exec: Executor, hostname: string, command: Option<string>): (out: Option<string>)
    ensures command.None? ==> out.None?
    ensures command.Some? ==> out == exec(hostname, command.value)
  {
    if command.Some? then exec(hostname, command.value) else None
  }

  /** On the real executor, an unresolvable host is reported with the error
      text. */
  lemma UnresolvedHostReportsError(resolves: string -> bool, transport: (string, string) -> Option<string>,
                                   hostname: string, command: Option<string>)
    requires !resolves(hostname)
    ensures !Truthy(CommandOutput(SshExecutor(resolves, transport), hostname, command))
  {
    if command.Some? {
      assert SshExecutor(resolves, transport)(hostname, command.value) == None;
    }
  }
}
