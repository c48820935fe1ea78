/** What one DirBrute.check_path call does to the scan's counters and found entries, and
    what a sequential run of check_path over the candidate list does. The HTTP transport,
    the asynchronous Ctrl-C handler and unexpected exceptions are inputs (a Probe). */
module Results {
  import opened Text

  /** How the transport call ended: a response, or the requests exception it raised. */
  datatype Outcome =
    | Success(status: int, length: nat, elapsed: real)
    | Timeout
    | SslError
    | ConnectionError
    | OtherRequestError

  /** When, during one check_path call, the interrupt handler sets the flag (if at all). */
  datatype Signal = NoSignal | BeforeEntry | DuringRateWait | DuringRequest

  /** An exception that is not a requests exception and reaches the outer handler:
      raised by the rate wait, by the URL join, or while logging an outcome that has
      already been counted (printing, or writing the results file in log_found). */
  datatype Fault = NoFault | RateWaitFault | JoinFault | LoggingFault

  /** Everything the environment decides for one check_path call. */
  datatype Probe = Probe(signal: Signal, fault: Fault, outcome: Outcome, timestamp: string)

  /** One element of found_paths. */
  datatype FoundEntry = FoundEntry(url: string, status: int, length: int, time: real, timestamp: string)

  /** The scan's shared state: the three request counters, the number of calls that
      reached the outer exception handler, and found_paths. */
  datatype ScanState = ScanState(total: nat, succeeded: nat, failed: nat, faults: nat, found: seq<FoundEntry>)

  /** The scanner configuration check_path reads. */
  datatype Config = Config(target: string, statusCodes: seq<int>, verbose: bool)

  /** urljoin, which is not modelled: the caller supplies it. */
  type Joiner = (string, string) -> string

  const Initial: ScanState := ScanState(0, 0, 0, 0, [])

  /** The report decision: an explicit allow-list if one is configured, otherwise
      every status except 404. */
  predicate ShouldReport(statusCodes: seq<int>, status: int) {
    if statusCodes != [] then status in statusCodes else status != 404
  }

  /** What the scan state always satisfies: entries only come from counted responses
      that passed the filter, and every call that reached the request, or the outer
      exception handler, was counted exactly once per counter it touched. */
  predicate Consistent(statusCodes: seq<int>, st: ScanState) {
    && |st.found| <= st.succeeded <= st.total
    && st.succeeded + st.failed == st.total + st.faults
    && forall e :: e in st.found ==> ShouldReport(statusCodes, e.status)
  }

  /** Where a check_path call ends, given the flag on entry. */
  datatype Route = Skipped | FailedEarly | Dispatched

  function RouteOf(flag: bool, p: Probe): Route {
    if flag || p.signal == BeforeEntry then Skipped
    else if p.fault == RateWaitFault then FailedEarly
    else if p.signal == DuringRateWait then Skipped
    else if p.fault == JoinFault then FailedEarly
    else Dispatched
  }

  /** The interrupt flag after the call: set if it was set on entry, or if the handler
      fires at a point the call reaches (a request interrupted only if one is made); nothing
      clears it. */
  function FlagAfter(flag: bool, p: Probe): bool {
    || flag
    || p.signal == BeforeEntry
    || p.signal == DuringRateWait
    || (p.signal == DuringRequest && RouteOf(flag, p) == Dispatched)
  }

  /** The URL requested for a candidate: the target with one '/' joined to the path
      without its leading slashes. */
  function FullUrl(join: Joiner, target: string, path: string): string {
    join(target + "/", TrimLeft(path, {'/'}))
  }

  /** The entry log_found appends for the request to url, if any: one for a response
      that passes the status filter, none otherwise. */
  function Report(codes: seq<int>, url: string, p: Probe): seq<FoundEntry> {
    match p.outcome
    case Success(status, length, elapsed) =>
      if ShouldReport(codes, status) then [FoundEntry(url, status, length, elapsed, p.timestamp)] else []
    case _ => []
  }

  /** Whether handling this outcome writes a log line (where a LoggingFault can strike). */
  predicate Logs(cfg: Config, outcome: Outcome) {
    match outcome
    case Success(status, _, _) => ShouldReport(cfg.statusCodes, status) || cfg.verbose
    case _ => cfg.verbose
  }

  /** The bookkeeping after the request for url was counted: one success or one failure,
      the found entry for a reportable response, and one more failure if logging raises. */
  function Handle(cfg: Config, st: ScanState, url: string, p: Probe): ScanState {
    var handled :=
      if p.outcome.Success?
      then st.(succeeded := st.succeeded + 1, found := st.found + Report(cfg.statusCodes, url, p))
      else st.(failed := st.failed + 1);
    if p.fault == LoggingFault && Logs(cfg, p.outcome)
    then handled.(failed := handled.failed + 1, faults := handled.faults + 1)
    else handled
  }

  /** The scan state after one check_path call for path. */
  function Step(cfg: Config, join: Joiner, flag: bool, st: ScanState, path: string, p: Probe): ScanState {
    match RouteOf(flag, p)
    case Skipped => st
    case FailedEarly => st.(failed := st.failed + 1, faults := st.faults + 1)
    case Dispatched => Handle(cfg, st.(total := st.total + 1), FullUrl(join, cfg.target, path), p)
  }

  /** A sequential scan: check_path for each candidate in turn, with the drain loop
      stopping as soon as it sees the flag after a completed call. */
  function Scan(cfg: Config, join: Joiner, flag: bool, st: ScanState, paths: seq<string>, probes: seq<Probe>): (bool, ScanState)
    requires |paths| <= |probes|
    decreases |paths|
  {
    if paths == [] then (flag, st)
    else
      var st' := Step(cfg, join, flag, st, paths[0], probes[0]);
      var flag' := FlagAfter(flag, probes[0]);
      if flag' then (flag', st') else Scan(cfg, join, flag', st', paths[1..], probes[1..])
  }

  /** check_path keeps the scan state consistent whatever the environment does. */
  lemma StepConsistent(cfg: Config, join: Joiner, flag: bool, st: ScanState, path: string, p: Probe)
    requires Consistent(cfg.statusCodes, st)
    ensures Consistent(cfg.statusCodes, Step(cfg, join, flag, st, path, p))
  {
  }

  /** With the flag already set on entry, or set by the time the rate wait returns, the
      call changes nothing. */
  lemma StepInterrupted(cfg: Config, join: Joiner, flag: bool, st: ScanState, path: string, p: Probe)
    requires flag || p.signal == BeforeEntry || (p.signal == DuringRateWait && p.fault != RateWaitFault)
    ensures Step(cfg, join, flag, st, path, p) == st
  {
  }

  /** A call that reaches the request counts one request, then exactly one
      response or one failure; only a logging fault adds a second failure. found_paths
      grows by the one entry for the request exactly when it is a response that passes
      the filter, and nothing earlier is removed or reordered. */
  lemma StepDispatched(cfg: Config, join: Joiner, flag: bool, st: ScanState, path: string, p: Probe)
    requires RouteOf(flag, p) == Dispatched
    ensures var r := Step(cfg, join, flag, st, path, p);
      && r.total == st.total + 1
      && r.succeeded == st.succeeded + (if p.outcome.Success? then 1 else 0)
      && r.failed == st.failed + (if p.outcome.Success? then 0 else 1)
                      + (if p.fault == LoggingFault && Logs(cfg, p.outcome) then 1 else 0)
      && r.found[..|st.found|] == st.found
      && (p.outcome.Success? && ShouldReport(cfg.statusCodes, p.outcome.status) ==>
            r.found == st.found + [FoundEntry(FullUrl(join, cfg.target, path), p.outcome.status,
                                              p.outcome.length, p.outcome.elapsed, p.timestamp)])
      && (!(p.outcome.Success? && ShouldReport(cfg.statusCodes, p.outcome.status)) ==> r.found == st.found)
  {
  }

  /** A call ending in the outer handler before the request counts one failure and
      nothing else. */
  lemma StepFailedEarly(cfg: Config, join: Joiner, flag: bool, st: ScanState, path: string, p: Probe)
    requires RouteOf(flag, p) == FailedEarly
    ensures Step(cfg, join, flag, st, path, p) == st.(failed := st.failed + 1, faults := st.faults + 1)
  {
  }

  /** One step of a scan from position i of the candidates. */
  lemma ScanAt(cfg: Config, join: Joiner, flag: bool, st: ScanState, paths: seq<string>, probes: seq<Probe>, i: nat)
    requires i < |paths| <= |probes|
    ensures var st' := Step(cfg, join, flag, st, paths[i], probes[i]);
      var flag' := FlagAfter(flag, probes[i]);
      Scan(cfg, join, flag, st, paths[i..], probes[i..])
        == if flag' then (flag', st') else Scan(cfg, join, flag', st', paths[i + 1..], probes[i + 1..])
  {
    assert paths[i..][1..] == paths[i + 1..];
    assert probes[i..][1..] == probes[i + 1..];
  }

  /** A sequential scan keeps the scan state consistent. */
  lemma {:induction false} ScanConsistent(cfg: Config, join: Joiner, flag: bool, st: ScanState,
                                          paths: seq<string>, probes: seq<Probe>)
    requires |paths| <= |probes|
    requires Consistent(cfg.statusCodes, st)
    ensures Consistent(cfg.statusCodes, Scan(cfg, join, flag, st, paths, probes).1)
    decreases |paths|
  {
    if paths != [] {
      var st' := Step(cfg, join, flag, st, paths[0], probes[0]);
      StepConsistent(cfg, join, flag, st, paths[0], probes[0]);
      if !FlagAfter(flag, probes[0]) {
        ScanConsistent(cfg, join, false, st', paths[1..], probes[1..]);
      }
    }
  }

  /** Once the flag is set, a scan dispatches nothing and changes nothing. */
  lemma ScanInterrupted(cfg: Config, join: Joiner, st: ScanState, paths: seq<string>, probes: seq<Probe>)
    requires |paths| <= |probes|
    ensures Scan(cfg, join, true, st, paths, probes) == (true, st)
  {
  }

  /** A scan only appends to found_paths, never lowers a counter, and never clears the flag. */
  lemma {:induction false} ScanMonotone(cfg: Config, join: Joiner, flag: bool, st: ScanState,
                                        paths: seq<string>, probes: seq<Probe>)
    requires |paths| <= |probes|
    ensures var (flag', st') := Scan(cfg, join, flag, st, paths, probes);
      && (flag ==> flag')
      && st.total <= st'.total <= st.total + |paths|
      && st.succeeded <= st'.succeeded && st.failed <= st'.failed
      && st.found <= st'.found
    decreases |paths|
  {
    if paths != [] && !FlagAfter(flag, probes[0]) {
      var st1 := Step(cfg, join, flag, st, paths[0], probes[0]);
      ScanMonotone(cfg, join, false, st1, paths[1..], probes[1..]);
    }
  }

  /** The entries an undisturbed scan reports: one per response that passes the filter,
      in candidate order. */
  function Reported(cfg: Config, join: Joiner, paths: seq<string>, outcomes: seq<Probe>): seq<FoundEntry>
    requires |paths| <= |outcomes|
    decreases |paths|
  {
    if paths == [] then []
    else Report(cfg.statusCodes, FullUrl(join, cfg.target, paths[0]), outcomes[0])
         + Reported(cfg, join, paths[1..], outcomes[1..])
  }


  /** An undisturbed call is dispatched, leaves the flag clear, counts its request once
      and logs its reportable response. */
  lemma StepUndisturbed(cfg: Config, join: Joiner, st: ScanState, path: string, p: Probe)
    requires p.signal == NoSignal && p.fault == NoFault
    ensures !FlagAfter(false, p)
    ensures Step(cfg, join, false, st, path, p)
         == st.(total := st.total + 1,
                succeeded := st.succeeded + (if p.outcome.Success? then 1 else 0),
                failed := st.failed + (if p.outcome.Success? then 0 else 1),
                found := st.found + Report(cfg.statusCodes, FullUrl(join, cfg.target, path), p))
  {
  }

  /** Number of probes among the first n whose transport call returned a response. */
  function Responses(probes: seq<Probe>, n: nat): nat
    requires n <= |probes|
  {
    if n == 0 then 0 else Responses(probes, n - 1) + if probes[n - 1].outcome.Success? then 1 else 0
  }

  predicate Undisturbed(probes: seq<Probe>, n: nat)
    requires n <= |probes|
  {
    forall i :: 0 <= i < n ==> probes[i].signal == NoSignal && probes[i].fault == NoFault
  }

  /** Without interruption or unexpected exceptions every candidate is requested once,
      each request is either a success or a failure, and found_paths gains exactly the
      reportable responses in order. */
  lemma {:induction false} ScanUndisturbed(cfg: Config, join: Joiner, st: ScanState,
                                           paths: seq<string>, probes: seq<Probe>)
    requires |paths| <= |probes|
    requires Undisturbed(probes, |paths|)
    ensures var (flag', st') := Scan(cfg, join, false, st, paths, probes);
      && !flag'
      && st'.total == st.total + |paths|
      && st'.succeeded == st.succeeded + Responses(probes, |paths|)
      && st'.failed == st.failed + (|paths| - Responses(probes, |paths|))
      && st'.faults == st.faults
      && st'.found == st.found + Reported(cfg, join, paths, probes)
    decreases |paths|
  {
    if paths != [] {
      var p := probes[0];
      var st1 := Step(cfg, join, false, st, paths[0], p);
      assert Undisturbed(probes[1..], |paths| - 1) by {
        forall i | 0 <= i < |paths| - 1
          ensures probes[1..][i].signal == NoSignal && probes[1..][i].fault == NoFault
        {
          assert probes[1..][i] == probes[i + 1];
        }
      }
      StepUndisturbed(cfg, join, st, paths[0], p);
      ScanUndisturbed(cfg, join, st1, paths[1..], probes[1..]);
      ResponsesShift(probes, |paths|);
      assert st1.found + Reported(cfg, join, paths[1..], probes[1..])
          == st.found + Reported(cfg, join, paths, probes);
    }
  }

  /** Calls without an unexpected exception add no fault, whatever the interrupts do. */
  lemma {:induction false} ScanFaultFree(cfg: Config, join: Joiner, flag: bool, st: ScanState,
                                         paths: seq<string>, probes: seq<Probe>)
    requires |paths| <= |probes|
    requires forall i :: 0 <= i < |paths| ==> probes[i].fault == NoFault
    ensures Scan(cfg, join, flag, st, paths, probes).1.faults == st.faults
    decreases |paths|
  {
    if paths != [] && !FlagAfter(flag, probes[0]) {
      var st1 := Step(cfg, join, flag, st, paths[0], probes[0]);
      assert probes[0].fault == NoFault;
      forall i | 0 <= i < |paths| - 1
        ensures probes[1..][i].fault == NoFault
      {
        assert probes[1..][i] == probes[i + 1];
      }
      ScanFaultFree(cfg, join, false, st1, paths[1..], probes[1..]);
    }
  }

  /** Starting without faults, a scan in which no call raises an unexpected exception
      ends with every request counted exactly once, as a response or as a failure; this
      holds however and whenever an interrupt stops it. */
  lemma ScanCleanBalance(cfg: Config, join: Joiner, flag: bool, st: ScanState,
                         paths: seq<string>, probes: seq<Probe>)
    requires |paths| <= |probes|
    requires Consistent(cfg.statusCodes, st) && st.faults == 0
    requires forall i :: 0 <= i < |paths| ==> probes[i].fault == NoFault
    ensures var st' := Scan(cfg, join, flag, st, paths, probes).1;
      st'.succeeded + st'.failed == st'.total && |st'.found| <= st'.succeeded
  {
    ScanFaultFree(cfg, join, flag, st, paths, probes);
    ScanConsistent(cfg, join, flag, st, paths, probes);
  }

  /** Counting responses among the first n probes, split off the first one. */
  lemma {:induction false} ResponsesShift(probes: seq<Probe>, n: nat)
    requires 0 < n <= |probes|
    ensures Responses(probes, n) == (if probes[0].outcome.Success? then 1 else 0) + Responses(probes[1..], n - 1)
  {
    if n > 1 {
      ResponsesShift(probes, n - 1);
      assert probes[1..][n - 2] == probes[n - 1];
    }
  }
}
