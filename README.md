# DirBrute core in Dafny

`dirbrute.py` is a threaded HTTP directory brute-forcer. It reads a wordlist, turns each
line into one or more candidate paths, requests each candidate from a target URL, counts
the requests, keeps the responses that pass a status-code filter, and prints a summary
grouped by status code. This project models the sequential logic of that program and
proves properties about it:

- `text.dfy` (module `Text`): the Python string operations the scanner relies on
  (`strip`, `lstrip`, `rstrip`, `startswith`, `endswith`, the first-`:` search behind
  `split(':', 1)`, `upper`).
- `paths.dfy` (module `Paths`): what `generate_paths` produces from a list of wordlist
  lines. It covers which lines are kept, how each kept line is expanded with the
  configured extensions, and what follows for order, shape and count.
- `results.dfy` (module `Results`): what one `check_path` call does to the counters and
  to `found_paths`, and what a sequential run of `check_path` over the candidates does.
  The transport outcome, the moment an interrupt arrives and any unexpected exception
  are inputs, bundled as a `Probe`.
- `summary.dfy` (module `Summary`): the grouping of `found_paths` by status that
  `print_summary` walks in ascending status order.
- `cli.dfy` (module `Cli`): parsing of the `-H` header strings in `main`, and the
  default request headers that the custom ones override.
- `scanner.dfy` (module `DirBrute`): the scanner object as a class `Scanner`. Its fields
  are the configuration, the set-once `interrupted` flag, the three request counters
  and `found_paths`. Each method is proved against the pure functions above.
- `scenarios.dfy` (module `Scenarios`): an end-to-end scan of a four-line wordlist (two
  ordinary words, a comment, an empty line), under the default filter and under an
  explicit allow-list.

The model is sequential: the thread pool becomes a loop that calls `check_path` for each
candidate in order. The loop stops after the first call that leaves the interrupt flag
set, as the drain loop over `as_completed` does. The locks become no-ops.

Three points about the counters, the variants and the order of found entries:

- The counters do not always satisfy `successful + failed <= total`. The outer
  `except Exception` of `check_path` (dirbrute.py:234-236) counts a failure when the
  rate wait or `urljoin` raises before `total_requests` is counted, and again when
  logging raises after the outcome was already counted. The model counts these calls in
  a ghost counter `faults`. It proves `succeeded + failed == total + faults` always, and
  `succeeded + failed == total` for every scan in which no call raises such an
  exception, whether or not an interrupt stops it.
- A variant is skipped when the path already ends with `.` + the extension without its
  leading dots (dirbrute.py:259-260), and the model tests exactly that suffix.
- Found entries arrive in completion order, which the threads make nondeterministic.
  The sequential model fixes one order: the candidate order.

## Model

| member | source | states |
|---|---|---|
| Text.TrimLeft | dirbrute.py:170 | `lstrip(chars)`: the result is no longer than the input and does not start with a stripped character |
| Text.TrimLeftCuts | dirbrute.py:259 | `lstrip` removes a prefix made only of stripped characters and keeps the rest unchanged |
| Text.TrimRight | dirbrute.py:39 | `rstrip(chars)`: the result is no longer than the input and does not end with a stripped character |
| Text.TrimRightCuts | dirbrute.py:39 | `rstrip` removes a suffix made only of stripped characters and keeps the rest unchanged |
| Text.TrimRightPadded | dirbrute.py:39 | `rstrip` undoes any padding with stripped characters, and removes nothing else |
| Text.TrimLeftPadded | dirbrute.py:259 | `lstrip` undoes any padding with stripped characters, and removes nothing else |
| Text.Strip | dirbrute.py:249 | `strip()` never lengthens a line |
| Text.StripPadded | dirbrute.py:249 | `strip()` returns exactly the core of a string padded with whitespace on both sides, when the core has no whitespace at its ends |
| Text.StripPlain | dirbrute.py:249 | `strip()` leaves a string without whitespace at its ends unchanged |
| Text.StripIdempotent | dirbrute.py:249 | stripping a stripped line changes nothing |
| Text.IndexOf | dirbrute.py:553 | the index of the first occurrence of a character, or the length when it does not occur |
| Text.Upper | dirbrute.py:43 | `upper()` keeps the length and maps each character to its upper-case form |
| Text.UpperNormalises | dirbrute.py:43 | after `upper()` no lower-case ASCII letter is left, other characters are kept, and `upper()` is idempotent |
| Paths.Variants | dirbrute.py:257-261 | at most one variant per extension |
| Paths.VariantsAll | dirbrute.py:257-261 | exactly one variant per extension when the path ends with none of the suffixes |
| Paths.VariantStep | dirbrute.py:257-261 | one pass of the extension loop extends the variants of the extensions seen so far by that extension's variant |
| Paths.VariantsMembership | dirbrute.py:257-261 | a string is a variant iff it is the path followed by `.` + the extension without leading dots, for an extension whose suffix the path does not already end with |
| Paths.StripAll | dirbrute.py:249 | every line is stripped, in wordlist order |
| Paths.Kept | dirbrute.py:250-251 | a path is kept iff it is non-empty and does not start with `#` |
| Paths.KeptLinesMembership | dirbrute.py:246-254 | a path is kept iff some wordlist line strips to it and it is non-empty and not a comment |
| Paths.CandidatesExpandKeptLines | dirbrute.py:246-261 | the candidates are the kept lines in wordlist order, each one followed at once by its own variants |
| Paths.CandidatesSnoc | dirbrute.py:246-261 | one more line adds exactly that line's expansion at the end, or nothing when the line is not kept |
| Paths.CandidatesAppend | dirbrute.py:246-261 | the candidates of two wordlists read one after the other are the first's candidates followed by the second's |
| Paths.ExpandAllLength | dirbrute.py:254-261 | N kept lines and E extensions give between N and N·(E+1) candidates |
| Paths.ExpandAllLengthExact | dirbrute.py:254-261 | exactly N·(E+1) candidates when no kept line already ends with a configured suffix |
| Paths.CandidatesLength | dirbrute.py:246-261 | the count bounds, stated over the wordlist itself |
| Paths.CandidatesPrefix | dirbrute.py:247-248 | stopping after the first k lines yields a prefix of the full candidate list |
| Results.StepConsistent | dirbrute.py:157-238 | `check_path` preserves the invariant: found entries ≤ successes ≤ total, successes + failures = total + faults, and every found entry passes the status filter |
| Results.StepInterrupted | dirbrute.py:160-168 | with the flag set on entry, or set by the end of the rate wait, the call changes nothing |
| Results.StepDispatched | dirbrute.py:170-232 | a call that reaches the request: total + 1, then exactly one success or one failure (plus one failure when logging raises); `found_paths` gains exactly the reportable response's entry at the end, and earlier entries stay |
| Results.StepFailedEarly | dirbrute.py:163-171 | an exception from the rate wait or the URL join counts one failure and nothing else |
| Results.StepUndisturbed | dirbrute.py:170-232 | a call without signal or unexpected exception leaves the flag clear, counts one request and one success or failure, and appends the entry it reports |
| Results.ScanAt | dirbrute.py:418-425 | from any position, a scan is one `check_path` step followed, unless the flag is now set, by the scan of the rest |
| Results.ScanConsistent | dirbrute.py:157-238 | a whole sequential scan preserves the invariant |
| Results.ScanInterrupted | dirbrute.py:160-161 | once the flag is set, a scan changes nothing |
| Results.ScanMonotone | dirbrute.py:172-238 | a scan never clears the flag or lowers a counter, only appends to `found_paths`, and counts at most one request per candidate |
| Results.ScanUndisturbed | dirbrute.py:172-232 | without interrupt or unexpected exception: one request per candidate, successes = responses, failures = the rest, and `found_paths` gains exactly the reportable responses in order |
| Results.ScanFaultFree | dirbrute.py:157-236 | when no call raises an unexpected exception, a scan adds no fault, whatever the interrupts do |
| Results.ScanCleanBalance | dirbrute.py:157-236 | when no call raises an unexpected exception, successes + failures = total at the end, with or without an interrupt |
| Summary.WithStatus | dirbrute.py:339-342 | a status's group holds exactly the entries with that status |
| Summary.WithStatusPrefix | dirbrute.py:339-342 | within a group, entries keep arrival order |
| Summary.FirstArrivals | dirbrute.py:340-341 | the dict's keys are distinct and are exactly the statuses that occur |
| Summary.Insert | dirbrute.py:345 | inserting a new key into an ascending list keeps it strictly ascending and adds just that key |
| Summary.SortKeys | dirbrute.py:345 | `sorted()` of distinct keys is strictly ascending, with the same keys |
| Summary.SummarizeGroups | dirbrute.py:337-346 | one non-empty group per occurring status, in strictly ascending order, each holding its status's entries |
| Summary.SummarizePartition | dirbrute.py:337-346 | every found entry lands in exactly one group |
| Summary.SummarizeTotal | dirbrute.py:337-346 | the group sizes sum to `len(found_paths)` |
| Summary.TotalCovering | dirbrute.py:337-346 | over distinct keys that cover every status, the groups hold each entry once |
| Summary.OccurrencesDistinct | dirbrute.py:340-341 | a key of the dict occurs once among its keys |
| Cli.SplitHeader | dirbrute.py:552-554 | no split iff the string has no `:` |
| Cli.SplitHeaderJoin | dirbrute.py:553-554 | `key:value` with a key free of `:` splits back into the stripped key and the stripped value; any `:` in the value stays in it |
| Cli.ParseHeaders | dirbrute.py:549-556 | the loop builds the header dict, whose keys are exactly the keys set by well-formed strings |
| Cli.HeaderMapKeys | dirbrute.py:551-556 | a key is present iff some header string sets it |
| Cli.HeaderMapLastWins | dirbrute.py:554 | the last string that sets a key decides its value |
| Cli.SessionHeaders | dirbrute.py:72-81 | the defaults updated with the custom headers: custom values win, and the other defaults stay |
| Cli.SessionUserAgent | dirbrute.py:73 | the User-Agent is the given one, or the default one when none is given |
| DirBrute.Scanner.constructor | dirbrute.py:34-82 | the target with trailing `/` removed, the method upper-cased, the merged headers, the flag clear, the counters zero |
| DirBrute.Scanner.IsInterrupted | dirbrute.py:88-91 | returns the flag |
| DirBrute.Scanner.SetInterrupted | dirbrute.py:93-96 | sets the flag; setting it again changes nothing |
| DirBrute.Scanner.LogFound | dirbrute.py:103-112 | appends exactly one entry with the given fields and keeps the earlier ones |
| DirBrute.Scanner.CountFault | dirbrute.py:234-236 | the outer handler counts one failure (and one fault) and changes nothing else |
| DirBrute.Scanner.CheckPath | dirbrute.py:157-238 | the new state is the one `Results.Step` gives, the flag is the one `Results.FlagAfter` gives, and the invariant is kept |
| DirBrute.Scanner.Dispatch | dirbrute.py:170-232 | for a call whose URL join succeeded: total + 1, the flag set iff the signal came during the request, then the outcome handled as `Results.Handle` says |
| DirBrute.Scanner.HandleOutcome | dirbrute.py:176-232 | a response counts one success and is logged as found iff it passes the status filter; a transport exception counts one failure; a raise while logging counts one more failure |
| DirBrute.Scanner.GeneratePaths | dirbrute.py:240-270 | returns the candidates of the lines examined before the interrupt, which is a prefix of the full candidate list; the flag is set iff the interrupt came |
| DirBrute.Scanner.AppendLine | dirbrute.py:249-261 | a line that is kept after stripping appends its expansion; any other line appends nothing |
| DirBrute.Scanner.AppendVariants | dirbrute.py:257-261 | the extension loop appends the path's variants in extension order |
| DirBrute.Scanner.GroupByStatus | dirbrute.py:337-342 | the dict holds exactly the occurring statuses, each with its entries in arrival order; its keys are in first-arrival order |
| Summary.GroupedStep | dirbrute.py:339-342 | one pass of the grouping loop keeps the dict and its key order equal to the grouping of the entries seen so far |
| DirBrute.Scanner.SummaryGroups | dirbrute.py:337-346 | the groups that `Summary.Summarize` specifies |
| DirBrute.Scanner.Run | dirbrute.py:387-454 | the state after the scan is the sequential scan of the generated candidates; the summary groups are returned, or none when there are no candidates |
| DirBrute.Scanner.CheckAll | dirbrute.py:418-425 | the state after checking the candidates in order is the sequential scan `Results.Scan`, and the invariant is kept |
| Scenarios.PlainWordKept | dirbrute.py:249-261 | an ordinary word is kept as it is, followed by its `.php` variant |
| Scenarios.SkippedLines | dirbrute.py:250-251 | a comment line and an empty line add no candidate |
| Scenarios.ScenarioCandidates | dirbrute.py:246-261 | a word, `#comment`, an empty line and another word, with extension `php`, give each word followed by its `.php` variant |
| Scenarios.ScenarioScan | dirbrute.py:172-209 | with responses 200, 404, 301, 404: four requests, four successes, no failure, the flag clear, and the reportable entries in candidate order |
| Scenarios.ScenarioReported | dirbrute.py:199-209 | each response contributes its entry iff its status passes the filter |
| Scenarios.ScenarioDefaultFilter | dirbrute.py:199-209 | under the default filter the first word (200) and the second (301) are found, and the two 404s are not |
| Scenarios.ScenarioExplicitFilter | dirbrute.py:199-209 | under the allow-list `[200]` only the first word is found |

## Left out

- The HTTP transport (`requests.Session` and its `get`/`post`/`head`/`request`, redirects, TLS, timeouts) is not modelled. Each call's outcome is an input `Outcome`, and the `threads`, `timeout`, `verify_ssl`, `follow_redirects` and `rate_limit` settings are not fields of the model.
- `urljoin` is library URL logic and is an input function (`Joiner`). Only the parts around it are modelled: `url.rstrip('/')`, the `'/'` appended to the target, and `path.lstrip('/')`.
- The thread pool, `as_completed`, future cancellation and the locks are not modelled: the scan is sequential, as described above.
- The rate wait (`rate_limit_wait`) is not modelled, because it depends on wall-clock time and `sleep`. Only its effect on control flow is kept: a signal during the wait, or an exception raised by it.
- The progress line (speed, ETA, percentage), `format_size` and `format_time` involve floating-point formatting and time, and are left out.
- Content-length extraction (`len(response.content)` and the `int(...)` fallback) depends on response objects, so the length is part of the `Outcome`. An exception while reading the body counts as `OtherRequestError`, which has the same effect on the counters.
- `datetime.now()` timestamps are inputs (`Probe.timestamp`).
- Console output, colours, the banner, the text results file, the JSON dump, `print_banner`, `save_json` and `log` are I/O and are left out. An exception they raise while an outcome is logged is modelled as `LoggingFault`.
- The asynchronous signal handler and its global `scanner_instance` are not modelled. Instead, each call's `Probe.signal` says where in the call the handler fires, and `GeneratePaths` is given the line index at which it fires.
- `argparse`, `validate_url` and the wordlist file check (including the exits on a missing file) are not modelled. The wordlist is a sequence of lines.
- Text.Upper: covers ASCII letters only. The HTTP method comes from a fixed upper-case choice list, so Unicode case mapping does not arise.
- Cli.SessionHeaders: the last step merges into the session's case-insensitive header dict. That step is modelled as a plain map union, so keys that differ only in case are kept apart.
- Summary.SortKeys: `sorted()` is modelled only on the distinct keys of the grouping dict, which is the only input it gets here.
