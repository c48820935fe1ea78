/** The DirBrute scanner object: its configuration, the set-once interrupt flag, the request
    counters and found_paths that check_path updates in place, candidate generation, the
    sequential scan and the summary grouping. Each method is proved against the pure
    specifications of the Paths, Results, Summary and Cli modules. */
module DirBrute {
  import opened Text
  import opened Paths
  import opened Results
  import opened Summary
  import opened Cli

  class Scanner {
    /** The target URL with trailing slashes removed. */
    const target: string
    /** The HTTP method, upper-cased. */
    const httpMethod: string
    /** The explicit status allow-list; empty means "everything except 404". */
    const statusCodes: seq<int>
    const extensions: seq<string>
    const verbose: bool
    /** The headers every request carries. */
    const requestHeaders: map<string, string>

    var interrupted: bool
    var foundPaths: seq<FoundEntry>
    var totalRequests: nat
    var successfulRequests: nat
    var failedRequests: nat
    /** Calls that ended in the outer exception handler. */
    ghost var faults: nat

    function Settings(): Config {
      Config(target, statusCodes, verbose)
    }

    ghost function State(): ScanState
      reads this
    {
      ScanState(totalRequests, successfulRequests, failedRequests, faults, foundPaths)
    }

    ghost predicate Valid()
      reads this
    {
      && Consistent(statusCodes, State())
      && !EndsWith(target, "/")
    }

    /** DirBrute.__init__: normalises the URL and the method and merges the headers;
        absent status codes and extensions are passed as empty sequences, an absent
        user agent as the empty string. */
    constructor (url: string, httpMethod: string, statusCodes: seq<int>, extensions: seq<string>,
                 userAgent: string, headers: map<string, string>, verbose: bool)
      ensures target == TrimRight(url, {'/'}) && this.httpMethod == Upper(httpMethod)
      ensures this.statusCodes == statusCodes && this.extensions == extensions && this.verbose == verbose
      ensures requestHeaders == SessionHeaders(userAgent, headers)
      ensures !interrupted && State() == Initial
      ensures Valid()
    {
      target := TrimRight(url, {'/'});
      this.httpMethod := Upper(httpMethod);
      this.statusCodes := statusCodes;
      this.extensions := extensions;
      this.verbose := verbose;
      requestHeaders := SessionHeaders(userAgent, headers);
      interrupted := false;
      foundPaths := [];
      totalRequests, successfulRequests, failedRequests := 0, 0, 0;
      faults := 0;
    }

    method IsInterrupted() returns (b: bool)
      ensures b == interrupted
    {
      b := interrupted;
    }

    /** Sets the flag; setting it again changes nothing. */
    method SetInterrupted()
      modifies this`interrupted
      ensures interrupted
    {
      interrupted := true;
    }

    /** DirBrute.log_found, up to the append: exactly one entry is added at the end. */
    method LogFound(url: string, status: int, length: int, time: real, timestamp: string)
      modifies this`foundPaths
      ensures foundPaths == old(foundPaths) + [FoundEntry(url, status, length, time, timestamp)]
    {
      foundPaths := foundPaths + [FoundEntry(url, status, length, time, timestamp)];
    }

    /** Counts a call that ended in the outer exception handler. */
    method CountFault()
      modifies this`failedRequests, this`faults
      ensures failedRequests == old(failedRequests) + 1 && faults == old(faults) + 1
    {
      failedRequests := failedRequests + 1;
      faults := faults + 1;
    }

    /** DirBrute.check_path for one candidate, with the environment's behaviour given by p
        and urljoin by join. */
    method CheckPath(path: string, p: Probe, join: Joiner)
      requires Valid()
      modifies this
      ensures Valid()
      ensures State() == Step(Settings(), join, old(interrupted), old(State()), path, p)
      ensures interrupted == FlagAfter(old(interrupted), p)
    {
      StepConsistent(Settings(), join, interrupted, State(), path, p);
      if p.signal == BeforeEntry {
        SetInterrupted();
      }
      var stop := IsInterrupted();
      if stop {
        return;
      }
      if p.signal == DuringRateWait {
        SetInterrupted();
      }
      if p.fault == RateWaitFault {
        CountFault();
        return;
      }
      stop := IsInterrupted();
      if stop {
        return;
      }
      if p.fault == JoinFault {
        CountFault();
        return;
      }
      Dispatch(path, p, join);
    }

    /** The part of check_path's try block once both interrupt checks passed and the URL
        join did not raise: the join, the request count, and the handling of the outcome.
        The handler may fire while the request is in flight. */
    method Dispatch(path: string, p: Probe, join: Joiner)
      modifies this`totalRequests, this`interrupted, this`successfulRequests, this`failedRequests,
               this`foundPaths, this`faults
      ensures State() == Handle(Settings(), old(State()).(total := old(totalRequests) + 1), FullUrl(join, target, path), p)
      ensures interrupted == (old(interrupted) || p.signal == DuringRequest)
    {
      var fullUrl := join(target + "/", TrimLeft(path, {'/'}));
      totalRequests := totalRequests + 1;
      if p.signal == DuringRequest {
        SetInterrupted();
      }
      HandleOutcome(fullUrl, p);
    }

    /** The inner try of check_path once the request is counted: a response is counted as
        a success and, if it passes the status filter, logged as found; a requests
        exception is counted as a failure; a raise while logging counts one more failure. */
    method HandleOutcome(fullUrl: string, p: Probe)
      modifies this`successfulRequests, this`failedRequests, this`foundPaths, this`faults
      ensures State() == Handle(Settings(), old(State()), fullUrl, p)
    {
      var logged := verbose;
      match p.outcome {
        case Success(status, length, elapsed) =>
          successfulRequests := successfulRequests + 1;
          var shouldReport := true;
          if statusCodes != [] {
            shouldReport := status in statusCodes;
          } else {
            shouldReport := status != 404;
          }
          if shouldReport {
            LogFound(fullUrl, status, length, elapsed, p.timestamp);
            logged := true;
          }
        case _ =>
          failedRequests := failedRequests + 1;
      }
      if logged && p.fault == LoggingFault {
        CountFault();
      }
    }

    /** DirBrute.generate_paths over the wordlist's lines; the interrupt handler fires just
        before line signalAt is examined (never, if signalAt is past the end). */
    method GeneratePaths(wordlist: seq<string>, signalAt: nat) returns (paths: seq<string>)
      modifies this`interrupted
      ensures var examined := if old(interrupted) then 0 else Min(signalAt, |wordlist|);
        paths == Candidates(wordlist[..examined], extensions)
      ensures paths <= Candidates(wordlist, extensions)
      ensures interrupted == (old(interrupted) || signalAt < |wordlist|)
    {
      paths := [];
      var i := 0;
      while i < |wordlist|
        invariant 0 <= i <= |wordlist|
        invariant paths == Candidates(wordlist[..i], extensions)
        invariant interrupted == old(interrupted)
        invariant old(interrupted) ==> i == 0
        invariant !old(interrupted) ==> i <= signalAt
      {
        if i == signalAt {
          SetInterrupted();
        }
        var stop := IsInterrupted();
        if stop {
          break;
        }
        CandidatesSnoc(wordlist, i, extensions);
        paths := AppendLine(paths, wordlist[i]);
        i := i + 1;
      }
      CandidatesPrefix(wordlist, i, extensions);
    }

    /** The body of generate_paths' line loop: strips the line and, unless it is empty or a
        comment, appends it followed by its variants. */
    method AppendLine(paths: seq<string>, line: string) returns (out: seq<string>)
      ensures out == paths + LineCandidates(line, extensions)
    {
      out := paths;
      var path := Strip(line);
      if path != [] && !StartsWith(path, "#") {
        out := out + [path];
        out := AppendVariants(out, path);
        assert out == paths + Expand(path, extensions);
      }
    }

    /** The extension loop of generate_paths: appends path.ext for each configured
        extension (without its leading dots) that path does not already end with. */
    method AppendVariants(paths: seq<string>, path: string) returns (out: seq<string>)
      ensures out == paths + Variants(path, extensions)
    {
      out := paths;
      for j := 0 to |extensions|
        invariant out == paths + Variants(path, extensions[..j])
      {
        VariantStep(paths, path, extensions, j, out);
        var suffix := "." + TrimLeft(extensions[j], {'.'});
        if !EndsWith(path, suffix) {
          out := out + [path + suffix];
        }
      }
      assert extensions[..|extensions|] == extensions;
    }

    /** The grouping loop of print_summary: found entries by status, the statuses sorted. */
    method SummaryGroups() returns (groups: seq<Group>)
      ensures groups == Summarize(foundPaths)
    {
      var byStatus, order := GroupByStatus();
      var keys := SortKeys(order);
      groups := [];
      for j := 0 to |keys|
        invariant groups == GroupsFor(foundPaths, keys[..j])
      {
        assert keys[..j + 1][..j] == keys[..j];
        groups := groups + [Group(keys[j], byStatus[keys[j]])];
      }
      assert keys[..|keys|] == keys;
    }

    /** Fills the status_groups dict: each status maps to its entries in arrival order;
        order lists the dict's keys in insertion order. */
    method GroupByStatus() returns (byStatus: map<int, seq<FoundEntry>>, order: seq<int>)
      ensures order == FirstArrivals(foundPaths)
      ensures forall s :: s in byStatus <==> s in StatusSet(foundPaths)
      ensures forall s :: s in byStatus ==> byStatus[s] == WithStatus(foundPaths, s)
    {
      byStatus, order := map[], [];
      for i := 0 to |foundPaths|
        invariant Grouped(foundPaths[..i], byStatus, order)
      {
        var entry := foundPaths[i];
        GroupedStep(foundPaths, i, byStatus, order);
        if entry.status !in byStatus {
          byStatus := byStatus[entry.status := []];
          order := order + [entry.status];
        }
        byStatus := byStatus[entry.status := byStatus[entry.status] + [entry]];
      }
      assert foundPaths[..|foundPaths|] == foundPaths;
    }

    /** DirBrute.run without the thread pool: candidates are checked one after another in
        order, stopping after the first call that leaves the flag set. probes[i] is what the
        environment does during the i-th call. Returns the summary's groups, or none when
        the wordlist yields no candidates. */
    method Run(wordlist: seq<string>, signalAt: nat, probes: seq<Probe>, join: Joiner) returns (groups: seq<Group>)
      requires Valid()
      requires |Candidates(wordlist, extensions)| <= |probes|
      modifies this
      ensures Valid()
      ensures var examined := if old(interrupted) then 0 else Min(signalAt, |wordlist|);
        var paths := Candidates(wordlist[..examined], extensions);
        var flagged := old(interrupted) || signalAt < |wordlist|;
        && |paths| <= |probes|
        && (interrupted, State()) == Scan(Settings(), join, flagged, old(State()), paths, probes)
        && groups == (if paths == [] then [] else Summarize(foundPaths))
    {
      var paths := GeneratePaths(wordlist, signalAt);
      if |paths| == 0 {
        return [];
      }
      CheckAll(paths, probes, join);
      groups := SummaryGroups();
    }

    /** The submission loop of run without the thread pool: each candidate is checked in
        order, and the loop stops after the first call that leaves the flag set. */
    method CheckAll(paths: seq<string>, probes: seq<Probe>, join: Joiner)
      requires Valid()
      requires |paths| <= |probes|
      modifies this
      ensures Valid()
      ensures (interrupted, State()) == Scan(Settings(), join, old(interrupted), old(State()), paths, probes)
    {
      ghost var flag0, st0 := interrupted, State();
      var i := 0;
      while i < |paths|
        invariant 0 <= i <= |paths|
        invariant Valid()
        invariant Scan(Settings(), join, flag0, st0, paths, probes)
               == Scan(Settings(), join, interrupted, State(), paths[i..], probes[i..])
        invariant i > 0 ==> !interrupted
      {
        ScanAt(Settings(), join, interrupted, State(), paths, probes, i);
        CheckPath(paths[i], probes[i], join);
        var stop := IsInterrupted();
        if stop {
          break;
        }
        i := i + 1;
      }
    }
  }

  function Min(a: int, b: int): int {
    if a < b then a else b
  }
}
