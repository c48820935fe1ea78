/** A complete small scan, from wordlist to found entries, under the default status
    filter and under an explicit allow-list: two ordinary words around a comment line and
    an empty line, one extension, and the responses 200, 404, 301, 404. */
module Scenarios {
  import opened Text
  import opened Paths
  import opened Results

  const Extensions: seq<string> := ["php"]

  /** A word the line loop keeps as it is: not empty, no surrounding whitespace, not a
      comment, and not already ending with ".php". */
  predicate PlainWord(w: string) {
    && w != [] && w[0] !in Whitespace && w[|w| - 1] !in Whitespace
    && w[0] != '#' && !EndsWith(w, ".php")
  }

  /** The wordlist: a word, a comment line, an empty line, another word. */
  function Wordlist(a: string, b: string): seq<string> {
    [a, "#comment", "", b]
  }

  /** The candidates: each word followed by its ".php" variant. */
  function Expected(a: string, b: string): seq<string> {
    [a, a + ".php", b, b + ".php"]
  }

  /** An undisturbed call whose request gets a response with the given status. */
  function Answer(status: int): Probe {
    Probe(NoSignal, NoFault, Success(status, 0, 0.0), "")
  }

  /** The responses of the scan, in candidate order. */
  const Answers: seq<Probe> := [Answer(200), Answer(404), Answer(301), Answer(404)]

  /** A word not ending with ".php" gets exactly one variant. */
  lemma ExpandPhp(path: string)
    requires !EndsWith(path, ".php")
    ensures Expand(path, Extensions) == [path, path + ".php"]
  {
    assert BareExtension("php") == "php";
    assert Suffix("php") == ".php";
    assert Variant(path, "php") == [path + ".php"];
    assert Extensions[..0] == [];
    assert Variants(path, Extensions) == Variants(path, []) + Variant(path, "php");
  }

  /** A plain word is kept with its variant. */
  lemma PlainWordKept(w: string)
    requires PlainWord(w)
    ensures LineCandidates(w, Extensions) == [w, w + ".php"]
  {
    StripPlain(w);
    ExpandPhp(w);
  }

  /** The comment line and the empty line add nothing. */
  lemma SkippedLines()
    ensures LineCandidates("#comment", Extensions) == []
    ensures LineCandidates("", Extensions) == []
  {
    StripPlain("#comment");
    assert !IsCandidate("#comment");
  }

  /** A one-line wordlist yields that line's contribution. */
  lemma CandidatesOfLine(line: string)
    ensures Candidates([line], Extensions) == LineCandidates(line, Extensions)
  {
    assert [line][..0] == [];
  }

  /** The wordlist keeps both words, each followed by its .php variant, and drops the
      comment and the empty line. */
  lemma ScenarioCandidates(a: string, b: string)
    requires PlainWord(a) && PlainWord(b)
    ensures Candidates(Wordlist(a, b), Extensions) == Expected(a, b)
  {
    var w0, w1, w2, w3 := [a], ["#comment"], [""], [b];
    PlainWordKept(a);
    PlainWordKept(b);
    SkippedLines();
    assert Candidates(w0 + w1, Extensions) == [a, a + ".php"] by {
      CandidatesOfLine(a);
      CandidatesOfLine("#comment");
      CandidatesAppend(w0, w1, Extensions);
    }
    assert Candidates(w0 + w1 + w2, Extensions) == [a, a + ".php"] by {
      CandidatesOfLine("");
      CandidatesAppend(w0 + w1, w2, Extensions);
    }
    assert Candidates(w0 + w1 + w2 + w3, Extensions) == [a, a + ".php"] + [b, b + ".php"] by {
      CandidatesOfLine(b);
      CandidatesAppend(w0 + w1 + w2, w3, Extensions);
    }
    assert Wordlist(a, b) == w0 + w1 + w2 + w3;
  }

  /** The scan of the candidates: four requests, all answered, and found_paths holding
      the reportable responses in candidate order. */
  lemma ScenarioScan(cfg: Config, join: Joiner, a: string, b: string)
    ensures Scan(cfg, join, false, Initial, Expected(a, b), Answers)
         == (false, ScanState(4, 4, 0, 0, Reported(cfg, join, Expected(a, b), Answers)))
  {
    assert Undisturbed(Answers, 4);
    ScanUndisturbed(cfg, join, Initial, Expected(a, b), Answers);
    assert [] + Reported(cfg, join, Expected(a, b), Answers) == Reported(cfg, join, Expected(a, b), Answers);
    assert Responses(Answers, 1) == 1;
    assert Responses(Answers, 2) == 2;
    assert Responses(Answers, 3) == 3;
    assert Responses(Answers, 4) == 4;
  }

  /** What each response contributes to found_paths, in candidate order. */
  lemma ScenarioReported(cfg: Config, join: Joiner, a: string, b: string)
    ensures Reported(cfg, join, Expected(a, b), Answers)
         == (if ShouldReport(cfg.statusCodes, 200) then [FoundEntry(FullUrl(join, cfg.target, a), 200, 0, 0.0, "")] else [])
          + (if ShouldReport(cfg.statusCodes, 404) then [FoundEntry(FullUrl(join, cfg.target, a + ".php"), 404, 0, 0.0, "")] else [])
          + (if ShouldReport(cfg.statusCodes, 301) then [FoundEntry(FullUrl(join, cfg.target, b), 301, 0, 0.0, "")] else [])
          + (if ShouldReport(cfg.statusCodes, 404) then [FoundEntry(FullUrl(join, cfg.target, b + ".php"), 404, 0, 0.0, "")] else [])
  {
    var e := Expected(a, b);
    ReportedSplit(cfg, join, e, Answers);
  }

  /** The entries reported for four candidates, one call's contribution at a time. */
  lemma ReportedSplit(cfg: Config, join: Joiner, paths: seq<string>, probes: seq<Probe>)
    requires |paths| == 4 <= |probes|
    ensures Reported(cfg, join, paths, probes)
         == Report(cfg.statusCodes, FullUrl(join, cfg.target, paths[0]), probes[0]) + Report(cfg.statusCodes, FullUrl(join, cfg.target, paths[1]), probes[1])
          + Report(cfg.statusCodes, FullUrl(join, cfg.target, paths[2]), probes[2]) + Report(cfg.statusCodes, FullUrl(join, cfg.target, paths[3]), probes[3])
  {
    var r3 := Reported(cfg, join, paths[3..], probes[3..]);
    assert r3 == Report(cfg.statusCodes, FullUrl(join, cfg.target, paths[3]), probes[3]) by {
      assert paths[3..][1..] == [];
      var r := Report(cfg.statusCodes, FullUrl(join, cfg.target, paths[3]), probes[3]);
      assert r3 == r + Reported(cfg, join, paths[3..][1..], probes[3..][1..]) == r + [];
      assert r + [] == r;
    }
    var r2 := Reported(cfg, join, paths[2..], probes[2..]);
    assert r2 == Report(cfg.statusCodes, FullUrl(join, cfg.target, paths[2]), probes[2]) + r3 by {
      assert paths[2..][1..] == paths[3..] && probes[2..][1..] == probes[3..];
    }
    var r1 := Reported(cfg, join, paths[1..], probes[1..]);
    assert r1 == Report(cfg.statusCodes, FullUrl(join, cfg.target, paths[1]), probes[1]) + r2 by {
      assert paths[1..][1..] == paths[2..] && probes[1..][1..] == probes[2..];
    }
  }

  /** With the default filter, the first word (200) and the second (301) are found and the
      two 404s are not; four requests, all answered. */
  lemma ScenarioDefaultFilter(join: Joiner, target: string, verbose: bool, a: string, b: string)
    requires PlainWord(a) && PlainWord(b)
    ensures Candidates(Wordlist(a, b), Extensions) == Expected(a, b)
    ensures var (flag, st) := Scan(Config(target, [], verbose), join, false, Initial, Expected(a, b), Answers);
      && !flag
      && st.total == 4 && st.succeeded == 4 && st.failed == 0
      && st.found == [FoundEntry(FullUrl(join, target, a), 200, 0, 0.0, ""),
                      FoundEntry(FullUrl(join, target, b), 301, 0, 0.0, "")]
  {
    ScenarioCandidates(a, b);
    ScenarioScan(Config(target, [], verbose), join, a, b);
    ScenarioReported(Config(target, [], verbose), join, a, b);
  }

  /** With the allow-list [200] only the first word is found. */
  lemma ScenarioExplicitFilter(join: Joiner, target: string, verbose: bool, a: string, b: string)
    requires PlainWord(a) && PlainWord(b)
    ensures Candidates(Wordlist(a, b), Extensions) == Expected(a, b)
    ensures var (flag, st) := Scan(Config(target, [200], verbose), join, false, Initial, Expected(a, b), Answers);
      && !flag
      && st.total == 4 && st.succeeded == 4 && st.failed == 0
      && st.found == [FoundEntry(FullUrl(join, target, a), 200, 0, 0.0, "")]
  {
    ScenarioCandidates(a, b);
    ScenarioScan(Config(target, [200], verbose), join, a, b);
    ScenarioReported(Config(target, [200], verbose), join, a, b);
  }
}
