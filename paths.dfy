/** Candidate path generation (DirBrute.generate_paths): which wordlist lines are kept,
    how each kept line is expanded with the configured extensions, and what that implies
    for the order, shape and number of the candidates. */
module Paths {
  import opened Text

  /** A stripped wordlist line is a candidate unless it is empty or a '#' comment. */
  predicate IsCandidate(path: string) {
    path != [] && !StartsWith(path, "#")
  }

  /** A configured extension without its leading dots (ext.lstrip('.')). */
  function BareExtension(ext: string): string {
    TrimLeft(ext, {'.'})
  }

  /** The suffix ".<ext>" that a variant for ext appends. */
  function Suffix(ext: string): string {
    "." + BareExtension(ext)
  }

  /** The variant path.ext for one extension, or nothing when path already ends in .ext. */
  function Variant(path: string, ext: string): seq<string> {
    if EndsWith(path, Suffix(ext)) then [] else [path + Suffix(ext)]
  }

  /** The variants of path, one per extension in configuration order. */
  function Variants(path: string, exts: seq<string>): (r: seq<string>)
    ensures |r| <= |exts|
  {
    if exts == [] then []
    else Variants(path, exts[..|exts| - 1]) + Variant(path, exts[|exts| - 1])
  }

  /** Exactly one variant per extension when the path ends with none of the suffixes. */
  lemma {:induction false} VariantsAll(path: string, exts: seq<string>)
    requires forall e :: e in exts ==> !EndsWith(path, Suffix(e))
    ensures |Variants(path, exts)| == |exts|
  {
    if exts != [] {
      var init := exts[..|exts| - 1];
      forall e | e in init
        ensures !EndsWith(path, Suffix(e))
      {
        assert e in exts;
      }
      VariantsAll(path, init);
      assert exts[|exts| - 1] in exts;
    }
  }

  /** What one kept path contributes: the path itself, then its variants. */
  function Expand(path: string, exts: seq<string>): seq<string> {
    [path] + Variants(path, exts)
  }

  /** Every wordlist line after strip(), in wordlist order. */
  function StripAll(lines: seq<string>): (r: seq<string>)
    ensures |r| == |lines|
    ensures forall i :: 0 <= i < |lines| ==> r[i] == Strip(lines[i])
  {
    if lines == [] then [] else StripAll(lines[..|lines| - 1]) + [Strip(lines[|lines| - 1])]
  }

  /** The candidates among the given paths, in their order. */
  function Kept(paths: seq<string>): (r: seq<string>)
    ensures |r| <= |paths|
    ensures forall p :: p in r <==> p in paths && IsCandidate(p)
  {
    if paths == [] then []
    else
      var p := paths[|paths| - 1];
      Kept(paths[..|paths| - 1]) + (if IsCandidate(p) then [p] else [])
  }

  /** The stripped wordlist lines that are kept, in wordlist order. */
  function KeptLines(lines: seq<string>): seq<string> {
    Kept(StripAll(lines))
  }

  /** The expansions of the given paths, concatenated in order. */
  function ExpandAll(paths: seq<string>, exts: seq<string>): seq<string> {
    if paths == [] then []
    else ExpandAll(paths[..|paths| - 1], exts) + Expand(paths[|paths| - 1], exts)
  }

  /** The candidate list generate_paths builds from the given lines, line by line. */
  function Candidates(lines: seq<string>, exts: seq<string>): seq<string> {
    if lines == [] then []
    else Candidates(lines[..|lines| - 1], exts) + LineCandidates(lines[|lines| - 1], exts)
  }

  /** What one line adds: the stripped line and its variants, or nothing for an empty or
      comment line. */
  function LineCandidates(line: string, exts: seq<string>): seq<string> {
    var path := Strip(line);
    if IsCandidate(path) then Expand(path, exts) else []
  }

  /** The candidates are exactly the kept lines, in wordlist order, each one immediately
      followed by its own variants. */
  lemma {:induction false} CandidatesExpandKeptLines(lines: seq<string>, exts: seq<string>)
    ensures Candidates(lines, exts) == ExpandAll(KeptLines(lines), exts)
  {
    if lines != [] {
      var init := lines[..|lines| - 1];
      var path := Strip(lines[|lines| - 1]);
      CandidatesExpandKeptLines(init, exts);
      KeptLinesSnoc(lines);
      if IsCandidate(path) {
        ExpandAllSnoc(KeptLines(init), path, exts);
      } else {
        assert Candidates(lines, exts) == Candidates(init, exts);
        assert KeptLines(lines) == KeptLines(init);
      }
    }
  }

  /** The candidates of one more line: those of the earlier lines, then the line's own
      expansion if it is kept. */
  lemma CandidatesSnoc(lines: seq<string>, i: nat, exts: seq<string>)
    requires i < |lines|
    ensures Candidates(lines[..i + 1], exts) == Candidates(lines[..i], exts) + LineCandidates(lines[i], exts)
  {
    assert lines[..i + 1][..i] == lines[..i];
  }

  /** Reading two wordlists one after the other yields the candidates of the first
      followed by those of the second. */
  lemma {:induction false} CandidatesAppend(a: seq<string>, b: seq<string>, exts: seq<string>)
    ensures Candidates(a + b, exts) == Candidates(a, exts) + Candidates(b, exts)
    decreases |b|
  {
    if b == [] {
      assert a + b == a;
    } else {
      var init, last := b[..|b| - 1], b[|b| - 1];
      assert Candidates(a + b, exts) == Candidates(a + init, exts) + LineCandidates(last, exts) by {
        assert (a + b)[..|a + b| - 1] == a + init;
        assert (a + b)[|a + b| - 1] == last;
      }
      CandidatesAppend(a, init, exts);
    }
  }

  /** One iteration of the extension loop: appending the variant for the next extension
      (or nothing) extends the variants of the extensions seen so far. */
  lemma VariantStep(paths: seq<string>, path: string, exts: seq<string>, j: nat, out: seq<string>)
    requires j < |exts|
    requires out == paths + Variants(path, exts[..j])
    ensures var suffix := "." + TrimLeft(exts[j], {'.'});
      (if EndsWith(path, suffix) then out else out + [path + suffix]) == paths + Variants(path, exts[..j + 1])
  {
    VariantsSnoc(path, exts, j);
    var done, next := Variants(path, exts[..j]), Variant(path, exts[j]);
    assert paths + (done + next) == out + next;
  }

  /** One more extension adds that extension's variant, if any, at the end. */
  lemma VariantsSnoc(path: string, exts: seq<string>, j: nat)
    requires j < |exts|
    ensures Variants(path, exts[..j + 1]) == Variants(path, exts[..j]) + Variant(path, exts[j])
  {
    assert exts[..j + 1][..j] == exts[..j];
  }

  lemma KeptLinesSnoc(lines: seq<string>)
    requires lines != []
    ensures var path := Strip(lines[|lines| - 1]);
            KeptLines(lines) == KeptLines(lines[..|lines| - 1]) + (if IsCandidate(path) then [path] else [])
  {
    var n := |lines|;
    assert StripAll(lines)[..n - 1] == StripAll(lines[..n - 1]);
  }

  lemma ExpandAllSnoc(paths: seq<string>, p: string, exts: seq<string>)
    ensures ExpandAll(paths + [p], exts) == ExpandAll(paths, exts) + Expand(p, exts)
  {
    assert (paths + [p])[..|paths|] == paths;
  }

  /** A line's stripped form is kept exactly when some wordlist line strips to it and it
      is neither empty nor a comment. */
  lemma KeptLinesMembership(lines: seq<string>, p: string)
    ensures p in KeptLines(lines) <==> IsCandidate(p) && exists i :: 0 <= i < |lines| && Strip(lines[i]) == p
  {
    var stripped := StripAll(lines);
    if p in stripped {
      var i :| 0 <= i < |stripped| && stripped[i] == p;
      assert Strip(lines[i]) == p;
    }
  }

  /** A variant is produced exactly for the extensions whose suffix the path does not
      already end with, and it is the path followed by that suffix. */
  lemma {:induction false} VariantsMembership(path: string, exts: seq<string>, x: string)
    ensures x in Variants(path, exts) <==>
              exists e :: e in exts && !EndsWith(path, Suffix(e)) && x == path + Suffix(e)
  {
    if exts != [] {
      var init := exts[..|exts| - 1];
      var last := exts[|exts| - 1];
      VariantsMembership(path, init, x);
      assert exts == init + [last];
    }
  }

  /** N kept paths with E extensions give between N and N * (E + 1) candidates. */
  lemma {:induction false} ExpandAllLength(paths: seq<string>, exts: seq<string>)
    ensures |paths| <= |ExpandAll(paths, exts)| <= |paths| * (|exts| + 1)
  {
    if paths != [] {
      var n, m := |paths|, |exts| + 1;
      var init := paths[..n - 1];
      ExpandAllLength(init, exts);
      var k, t := |ExpandAll(init, exts)|, |Expand(paths[n - 1], exts)|;
      assert |ExpandAll(paths, exts)| == k + t;
      assert 1 <= t <= m;
      MulStep(n, m);
      assert k + t <= n * m;
    }
  }

  lemma MulStep(n: int, m: int)
    ensures (n - 1) * m + m == n * m
  {
  }

  /** The upper bound N * (E + 1) is reached when no kept path already ends with a
      configured extension. */
  lemma {:induction false} ExpandAllLengthExact(paths: seq<string>, exts: seq<string>)
    requires forall p, e :: p in paths && e in exts ==> !EndsWith(p, Suffix(e))
    ensures |ExpandAll(paths, exts)| == |paths| * (|exts| + 1)
  {
    if paths != [] {
      var n, m := |paths|, |exts| + 1;
      var init := paths[..n - 1];
      forall p, e | p in init && e in exts
        ensures !EndsWith(p, Suffix(e))
      {
        assert p in paths;
      }
      ExpandAllLengthExact(init, exts);
      assert paths[n - 1] in paths;
      VariantsAll(paths[n - 1], exts);
      assert |ExpandAll(paths, exts)| == |ExpandAll(init, exts)| + |Expand(paths[n - 1], exts)|;
      assert |Expand(paths[n - 1], exts)| == m;
      MulStep(n, m);
    }
  }

  /** The length bounds stated over the wordlist itself. */
  lemma CandidatesLength(lines: seq<string>, exts: seq<string>)
    ensures |KeptLines(lines)| <= |Candidates(lines, exts)| <= |KeptLines(lines)| * (|exts| + 1)
  {
    CandidatesExpandKeptLines(lines, exts);
    ExpandAllLength(KeptLines(lines), exts);
  }

  /** Stopping after the first k lines (as generate_paths does once interrupted) yields a
      prefix of the full candidate list. */
  lemma {:induction false} CandidatesPrefix(lines: seq<string>, k: nat, exts: seq<string>)
    requires k <= |lines|
    ensures Candidates(lines[..k], exts) <= Candidates(lines, exts)
  {
    if k < |lines| {
      var init := lines[..|lines| - 1];
      assert lines[..k] == init[..k];
      CandidatesPrefix(init, k, exts);
    } else {
      assert lines[..k] == lines;
    }
  }
}
