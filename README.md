# Privacy scanner finding pipeline, in Dafny

This project models the finding pipeline of the privacy scanner
`scripts/privacy-scan.py` and proves what it promises. The scanner walks a
source tree and keeps the files whose extension is a source-code extension
and whose path contains no skipped directory. It searches every non-comment
line of each file with three regular-expression tables: PII fields, PII in
log statements, and unencrypted storage. It then deduplicates the findings
on (file, line, category), keeps those at least as severe as a minimum,
sorts them by (severity rank, file, line), reports them as JSON or text and
exits with 1 when a critical or high finding remains.

The regular-expression search is a parameter, `matcher: (string, string) ->
bool`, so every result holds whatever the engine answers. File reads and
the directory walk are parameters too: `read: Path -> Option<string>` and
the listing `rglob('*')` yields.

Modules, one per part of the program:

- `Findings`: the `Severity` enumeration, the `Finding` record, the
  severity list and its ranks, and per-severity counts.
- `Strings`: the Python `str` operations the scanner uses (`strip`,
  `startswith`, `lower`, `[:n]`, `split('\n')`).
- `FileFilter`: `SCAN_EXTENSIONS`, `SKIP_DIRS`, `should_scan_file` and
  `get_files` over a POSIX path model.
- `Patterns`: the three rule tables, kept as their source text.
- `Scanner`: `scan_file`, as specification functions and the loops
  (methods) proved equal to them.
- `ScannerFacts`: what the scanner's output satisfies: soundness,
  completeness, bounds, pairings and line order.
- `Dedup`: `deduplicate_findings`.
- `SeverityFilter`: `filter_by_severity`, with the `ValueError` of
  `list.index` as an error value.
- `Sorting`: the key sort in `main`, as a stable insertion sort in place on
  an array, proved against a specification function.
- `Report`: the summary and verdict of `format_json_report` and
  `format_text_report`, and the exit code.
- `Pipeline`: `main` from the walk to the exit code.

Notes on the program's behaviour:

- The severity names are `critical`, `high`, `medium` and `low`, the values
  of the `Severity` enumeration and the entries of the severity list.
- `should_scan_file` tests every component of `path.parts` against
  `SKIP_DIRS`: the anchor, every ancestor directory (including those above
  the scanned root) and the file name itself.
- `path.suffix.lower()` is Python's full lower-casing, so the Kelvin sign
  U+212A lowers to `k`: a file named `Main.\u212At` has the suffix `.kt`
  once lowered and is scanned.
- `main` reads `--severity` through `argparse` with the four names as its
  choices. The test is exact: any other value, `HIGH` included, is a usage
  error (exit status 2) before any file is read. `filter_by_severity`
  lowers its minimum and raises `ValueError` for a name outside the list;
  that failure is `Err(NotInList(...))`, and it cannot happen inside `main`.

## Model

| member | source | states |
|---|---|---|
| Findings.Finding | scripts/privacy-scan.py:34-42 | the `Finding` dataclass: file, line, severity, category, description, code snippet and recommendation |
| Findings.KeyOf | scripts/privacy-scan.py:187 | the deduplication key `(f.file, f.line, f.category)` |
| Findings.SeverityOrder | scripts/privacy-scan.py:197 | the severity list `['critical', 'high', 'medium', 'low']`, most severe first |
| Findings.Severity.Value | scripts/privacy-scan.py:27-31 | every enumeration member's value is one of the four severity names |
| Findings.Rank | scripts/privacy-scan.py:197-200 | the rank of a severity name is its index in `['critical', 'high', 'medium', 'low']` |
| Findings.CountSeverity | scripts/privacy-scan.py:258-261 | the count of findings with a severity is at most the number of findings, and positive exactly when some finding has that severity |
| Findings.CountSeveritySnoc | scripts/privacy-scan.py:258-261 | one more finding adds one to its own severity's count and nothing to the others |
| Strings.StripLeftSpec | scripts/privacy-scan.py:135 | `lstrip` removes a whitespace-only prefix and leaves no leading whitespace |
| Strings.StripRightSpec | scripts/privacy-scan.py:135 | `rstrip` removes a whitespace-only suffix and leaves no trailing whitespace |
| Strings.StripSpec | scripts/privacy-scan.py:135 | `strip` returns a slice of the line, everything outside it is whitespace, and it neither starts nor ends with whitespace |
| Strings.StripBlank | scripts/privacy-scan.py:135 | stripping gives the empty string exactly when the line is all whitespace |
| Strings.Take | scripts/privacy-scan.py:148 | `s[:n]` is a prefix of `s`: all of `s` when it has at most `n` characters, else exactly its first `n` |
| Strings.IsSpace | scripts/privacy-scan.py:135 | the characters Python's `str.isspace` accepts, which `strip()` removes |
| Strings.StripLeft | scripts/privacy-scan.py:135 | `lstrip()`, characterised by `StripLeftSpec` |
| Strings.StripRight | scripts/privacy-scan.py:135 | `rstrip()`, characterised by `StripRightSpec` |
| Strings.Strip | scripts/privacy-scan.py:135 | `strip()`, characterised by `StripSpec` and `StripBlank` |
| Strings.StartsWith | scripts/privacy-scan.py:136 | `s.startswith(prefix)` holds exactly when `prefix` is no longer than `s` and equals its first characters |
| Strings.LowerSpec | scripts/privacy-scan.py:95 | `lower()` keeps the length, leaves no ASCII capital and no Kelvin sign, changes a character exactly when it is an ASCII capital or the Kelvin sign, moves an ASCII capital to its small letter, and lowers the Kelvin sign to `k` |
| Strings.LowerUnchanged | scripts/privacy-scan.py:198 | a string with no ASCII capital and no Kelvin sign is its own lower case |
| Strings.Split | scripts/privacy-scan.py:125 | `split` always returns at least one piece |
| Strings.SplitPieces | scripts/privacy-scan.py:125 | `split('\n')` gives one more piece than there are newlines, and no piece contains a newline |
| Strings.JoinSplit | scripts/privacy-scan.py:125 | joining the pieces of a split with the separator gives back the text |
| Strings.SplitAfterPlain | scripts/privacy-scan.py:125 | a separator-free prefix is glued onto the first piece of the rest |
| Strings.SplitAtSeparator | scripts/privacy-scan.py:125 | a leading separator yields an empty first piece |
| Strings.SplitJoin | scripts/privacy-scan.py:125 | splitting a join of separator-free pieces gives back the pieces |
| FileFilter.ScanExtensions | scripts/privacy-scan.py:81-84 | `SCAN_EXTENSIONS`, the seventeen source-code extensions |
| FileFilter.SkipDirs | scripts/privacy-scan.py:87-90 | `SKIP_DIRS`, the twelve directory names to skip |
| Patterns.PiiFieldPatterns | scripts/privacy-scan.py:46-63 | `PII_FIELD_PATTERNS`: each pattern with its PII type and severity, in table order |
| Patterns.LogPatterns | scripts/privacy-scan.py:66-72 | `LOG_PATTERNS`, in table order |
| Patterns.UnencryptedPatterns | scripts/privacy-scan.py:75-78 | `UNENCRYPTED_PATTERNS`, in table order |
| FileFilter.LastIndexOf | scripts/privacy-scan.py:95 | the index found holds the character and no later index does; -1 when there is none |
| FileFilter.Suffix | scripts/privacy-scan.py:95 | `path.suffix` is non-empty exactly when the name has a dot after its first character and does not end with a dot; it is then the name's tail from its last dot |
| FileFilter.HasSkippedPart | scripts/privacy-scan.py:98-100 | the loop over `path.parts` returns early exactly when some component is in `SKIP_DIRS` |
| FileFilter.ShouldScanFile | scripts/privacy-scan.py:93-102 | a file is scanned exactly when its lower-cased suffix is in `SCAN_EXTENSIONS` and no component at any depth is in `SKIP_DIRS` |
| FileFilter.Path.Parts | scripts/privacy-scan.py:98 | `path.parts`: the anchor when there is one, then every name |
| FileFilter.Path.Name | scripts/privacy-scan.py:95 | `path.name`: the last name, empty for a bare anchor |
| FileFilter.Path.Text | scripts/privacy-scan.py:143 | `str(path)`: the anchor then the names joined by `/`, `.` for the empty relative path |
| FileFilter.KelvinSuffixScanned | scripts/privacy-scan.py:95 | a file named `Main.\u212At` is scanned, its suffix lowering to `.kt` |
| FileFilter.NoDotNotScanned | scripts/privacy-scan.py:95-96 | a name with no dot after its first character is never scanned |
| FileFilter.FilesWhere | scripts/privacy-scan.py:114-116 | a path is selected exactly when some listed entry is that path, is a regular file and passes the filter |
| FileFilter.FilesWhereInListingOrder | scripts/privacy-scan.py:114-116 | the selected paths keep the listing's order |
| FileFilter.GetFiles | scripts/privacy-scan.py:105-116 | a root that is a file is yielded alone exactly when it passes the filter; otherwise exactly the listed regular files that pass it are yielded |
| Scanner.Snippet | scripts/privacy-scan.py:148 | the snippet is a prefix of the stripped line: the whole stripped line when it has at most 100 characters, else exactly its first 100 |
| Scanner.IsComment | scripts/privacy-scan.py:135-137 | a stripped line is skipped when it starts with `//`, `#` or `*` |
| Scanner.PiiFinding | scripts/privacy-scan.py:142-150 | the finding a matching PII-field entry adds: the file, the line number, the entry's severity, `pii_field`, the description and recommendation naming the PII type, the snippet |
| Scanner.LogFinding | scripts/privacy-scan.py:155-163 | the finding a matching logging pattern adds: high, `pii_in_logs`, its fixed description and recommendation, the snippet |
| Scanner.StorageFinding | scripts/privacy-scan.py:168-176 | the finding a matching storage pattern adds: critical, `unencrypted_pii`, its fixed description and recommendation, the snippet |
| Scanner.PiiFieldFindings | scripts/privacy-scan.py:140-150 | the specification of the PII-field loop, characterised by `PiiFieldFindingsMembers` |
| Scanner.PatternFindings | scripts/privacy-scan.py:153-176 | the specification of the logging and storage loops, characterised by `PatternFindingsMembers` |
| Scanner.LineFindings | scripts/privacy-scan.py:132-176 | the specification of one line's findings, characterised by `LineFindingsMembers` |
| Scanner.LinesFindings | scripts/privacy-scan.py:131-176 | the specification of the loop over the lines, characterised by `LinesFindingsMembers` and `LinesFindingsInLineOrder` |
| Scanner.FileFindings | scripts/privacy-scan.py:119-178 | the specification of `scan_file`, characterised by `FileFindingsBounds` |
| Scanner.ScanPiiFields | scripts/privacy-scan.py:140-150 | the PII-field loop appends, in table order, one finding per entry whose pattern matches the lower-cased line |
| Scanner.ScanPatterns | scripts/privacy-scan.py:153-176 | the logging and storage loops append one copy of their finding per matching pattern |
| Scanner.ScanLine | scripts/privacy-scan.py:132-176 | one line yields nothing when its stripped text starts with `//`, `#` or `*`, else the three tables' findings in turn |
| Scanner.ScanLines | scripts/privacy-scan.py:131-176 | the loop over `enumerate(lines, 1)` yields each line's findings in line order, numbered from 1 |
| Scanner.ScanFile | scripts/privacy-scan.py:119-178 | an unreadable file yields no findings; otherwise the findings of its `'\n'`-split lines |
| ScannerFacts.PiiFieldFindingsMembers | scripts/privacy-scan.py:140-150 | the PII-field table reports a finding exactly for each entry whose pattern matches |
| ScannerFacts.PatternFindingsMembers | scripts/privacy-scan.py:153-176 | a pattern table reports its finding exactly when one of its patterns matches |
| ScannerFacts.LineFindingsMembers | scripts/privacy-scan.py:132-176 | a line's findings are exactly the reported matches, and none on a comment line |
| ScannerFacts.ReportedShape | scripts/privacy-scan.py:142-176 | a reported finding carries its file and line number, the stripped line cut to 100 characters, a severity name and one of the three category/severity pairings |
| ScannerFacts.LineFindingReported | scripts/privacy-scan.py:132-176 | a finding of one line is a match reported on it, on a non-comment line, with that line's number |
| ScannerFacts.ReportedInLine | scripts/privacy-scan.py:132-176 | a match reported on a non-comment line is among that line's findings |
| ScannerFacts.LinesFindingsSound | scripts/privacy-scan.py:131-176 | every finding comes from a match on a non-comment line between 1 and the number of lines |
| ScannerFacts.LinesFindingsExtend | scripts/privacy-scan.py:131-176 | a finding of the earlier lines stays a finding once one more line is scanned |
| ScannerFacts.LinesFindingsComplete | scripts/privacy-scan.py:131-176 | every match on a non-comment line is among the findings |
| ScannerFacts.LinesFindingsMembers | scripts/privacy-scan.py:131-176 | the findings are exactly the matches reported on non-comment lines, line `n` being `lines[n - 1]` |
| ScannerFacts.LineFindingsAt | scripts/privacy-scan.py:143-144 | every finding of a line carries that file and line number |
| ScannerFacts.LinesFindingsAt | scripts/privacy-scan.py:131-176 | every finding carries the file and a line number between 1 and the number of lines |
| ScannerFacts.LinesFindingsInLineOrder | scripts/privacy-scan.py:131-176 | the findings' line numbers never decrease |
| ScannerFacts.LinesFindingsShape | scripts/privacy-scan.py:131-176 | every finding has a valid line number, comes from a non-comment line, has that line's snippet of at most 100 characters, a severity name and one of the three pairings |
| ScannerFacts.LinesFindingsSeverities | scripts/privacy-scan.py:145-171 | every finding carries one of the four severity names |
| ScannerFacts.FileFindingsBounds | scripts/privacy-scan.py:119-178 | an unreadable file yields nothing; otherwise every finding is bounded as above, carries a severity name, and the line numbers never decrease |
| ScannerFacts.PiiMatchIsReported | scripts/privacy-scan.py:140-150 | a matching PII-field entry on a non-comment line is reported with that line's number |
| ScannerFacts.LogMatchIsReported | scripts/privacy-scan.py:153-163 | a matching logging pattern on a non-comment line is reported as high `pii_in_logs` on that line |
| ScannerFacts.StorageMatchIsReported | scripts/privacy-scan.py:166-176 | a matching storage pattern on a non-comment line is reported as critical `unencrypted_pii` on that line |
| Dedup.Deduplicated | scripts/privacy-scan.py:181-192 | the specification of `deduplicate_findings`: the findings that are the first with their key, in order; characterised by the lemmas below |
| Dedup.DeduplicateFindings | scripts/privacy-scan.py:181-192 | the `seen`-set loop computes `Deduplicated`: a finding is kept exactly when its key was not seen before |
| Dedup.DeduplicatedKeys | scripts/privacy-scan.py:186-190 | every key of the input appears in the output and no other key does |
| Dedup.DeduplicatedKeysUnique | scripts/privacy-scan.py:186-190 | no two kept findings share a (file, line, category) key |
| Dedup.DeduplicatedInInputOrder | scripts/privacy-scan.py:186-190 | the output is a subsequence of the input |
| Dedup.DeduplicatedKeepsFirst | scripts/privacy-scan.py:186-190 | a finding is kept exactly when it is the first of the input with its key |
| Dedup.DeduplicatedUnique | scripts/privacy-scan.py:181-192 | a list whose keys are already unique is returned unchanged |
| Dedup.DeduplicatedIdempotent | scripts/privacy-scan.py:181-192 | deduplicating twice equals deduplicating once |
| SeverityFilter.Retain | scripts/privacy-scan.py:200 | the comprehension fails exactly when some severity is not a name, with the first such name; otherwise it succeeds |
| SeverityFilter.FilterBySeverity | scripts/privacy-scan.py:195-200 | an unknown lower-cased minimum fails with that name before any finding is looked at; the filter succeeds exactly when the minimum and every severity are names, and then keeps exactly the findings whose rank is at most the minimum's; with a known minimum it fails with the first finding severity that is not a name |
| SeverityFilter.LowerSeverityName | scripts/privacy-scan.py:198 | a severity name is its own lower case, so the filter looks it up as given |
| SeverityFilter.RetainMembers | scripts/privacy-scan.py:200 | the comprehension keeps exactly the findings whose rank is at most the limit |
| SeverityFilter.RetainInOrder | scripts/privacy-scan.py:200 | the kept findings are a subsequence of the input |
| SeverityFilter.RetainCounts | scripts/privacy-scan.py:200 | per severity, all findings are kept when its rank is within the limit and none otherwise |
| SeverityFilter.FilterBySeverityKeeps | scripts/privacy-scan.py:195-200 | the filter keeps order and severity names, and per severity keeps all or none of the findings |
| SeverityFilter.RetainAll | scripts/privacy-scan.py:200 | with the last rank as the limit nothing is dropped |
| SeverityFilter.FilterLowKeepsAll | scripts/privacy-scan.py:195-200 | filtering with `low`, in any letter case, returns the findings unchanged |
| Sorting.SortKeyOf | scripts/privacy-scan.py:286 | the key `(index(f.severity), f.file, f.line)` |
| Sorting.StrLe | scripts/privacy-scan.py:286 | Python's `<=` on strings: code point by code point, a prefix first; a total order by the three lemmas below |
| Sorting.KeyLe | scripts/privacy-scan.py:286 | Python's `<=` on the key tuples, element by element; a total order by the three lemmas below |
| Sorting.StrLeTotal | scripts/privacy-scan.py:286 | any two strings are comparable under Python's string order |
| Sorting.StrLeAntisymmetric | scripts/privacy-scan.py:286 | strings each at most the other are equal |
| Sorting.StrLeTransitive | scripts/privacy-scan.py:286 | Python's string order is transitive |
| Sorting.KeyLeTotal | scripts/privacy-scan.py:286 | any two (rank, file, line) keys are comparable |
| Sorting.KeyLeAntisymmetric | scripts/privacy-scan.py:286 | keys each at most the other are equal |
| Sorting.KeyLeTransitive | scripts/privacy-scan.py:286 | the tuple order on keys is transitive |
| Sorting.Insert | scripts/privacy-scan.py:286 | insertion adds one finding and keeps severity names |
| Sorting.Sort | scripts/privacy-scan.py:286 | the sort keeps the length and severity names |
| Sorting.InsertPermutes | scripts/privacy-scan.py:286 | insertion adds exactly `x` to the multiset |
| Sorting.SortPermutes | scripts/privacy-scan.py:286 | the sorted list is a permutation of the input |
| Sorting.InsertSorted | scripts/privacy-scan.py:286 | inserting into a sorted list keeps it sorted |
| Sorting.SortSorted | scripts/privacy-scan.py:286 | the sorted list is ordered by (rank, file, line) |
| Sorting.InsertStable | scripts/privacy-scan.py:286 | insertion places `x` after every finding with the same key |
| Sorting.SortStable | scripts/privacy-scan.py:286 | findings with equal keys keep their relative order |
| Sorting.InsertAt | scripts/privacy-scan.py:286 | insertion puts `x` just after the last finding that sorts no later than it |
| Sorting.InsertLast | scripts/privacy-scan.py:286 | one in-place step moves `a[i]` into the sorted prefix, giving `Insert` of the prefix, and leaves the rest of the array alone |
| Sorting.SortFindings | scripts/privacy-scan.py:286 | the in-place sort leaves the array holding `Sort` of its old contents |
| Report.Passed | scripts/privacy-scan.py:263 | `passed`: no finding is critical or high |
| Report.FormatJsonReport | scripts/privacy-scan.py:253-265 | the report lists the findings, `total` is their number, each of `critical`, `high`, `medium` and `low` is the number of findings with that severity, and `passed` holds exactly when the critical and high counts are zero |
| Report.SummaryAddsUp | scripts/privacy-scan.py:256-262 | when every severity is a name, the four counts add up to `total` |
| Report.CriticalHigh | scripts/privacy-scan.py:295 | the critical-or-high count is the critical count plus the high count |
| Report.ExitCode | scripts/privacy-scan.py:295-296 | the exit status is 0 or 1, and 0 exactly when no finding is critical or high, exactly when the JSON report's `passed` is true |
| Report.CountBySeverity | scripts/privacy-scan.py:216-218 | the `by_severity` loop gives every severity its number of findings |
| Report.FormatTextReport | scripts/privacy-scan.py:203-250 | no findings give exactly the no-issues message; otherwise the summary lines are those of the counts in severity order, and the report fails exactly when a finding is critical or high |
| Report.Get | scripts/privacy-scan.py:222 | `by_severity.get(s, 0)` |
| Report.SummaryLines | scripts/privacy-scan.py:220-224 | the summary lines for the severities of a list with a positive count, in list order; characterised by `SummaryLinesExactly` |
| Report.SummaryLinesExactly | scripts/privacy-scan.py:220-224 | a summary line appears exactly for each listed severity with a positive count, carrying that count |
| Report.LinesTotalCounts | scripts/privacy-scan.py:220-224 | leaving out zero counts does not change the sum of the summary |
| Report.CountsOfSeverityOrder | scripts/privacy-scan.py:220-224 | summing over the severity list gives the four per-severity counts |
| Report.SummaryLinesAddUp | scripts/privacy-scan.py:216-224 | when every severity is a name, the counts on the summary lines add up to the number of findings |
| Findings.SeverityOrderNames | scripts/privacy-scan.py:274 | a string is in the severity list exactly when it is a severity name |
| Pipeline.Collected | scripts/privacy-scan.py:279-281 | the findings of each selected file in turn, each file named by `str(path)` |
| Pipeline.Processed | scripts/privacy-scan.py:284-286 | a successful deduplicate-filter-sort chain yields findings with severity names |
| Pipeline.CollectFindings | scripts/privacy-scan.py:279-281 | `all_findings` is every selected file's findings, file after file |
| Pipeline.SortInPlace | scripts/privacy-scan.py:286 | sorting the list in place yields `Sort` of it |
| Pipeline.RunScan | scripts/privacy-scan.py:269-296 | `main` stops with a usage error, before any file is read, exactly when `--severity` is not one of the four names as written; otherwise the filter cannot fail, and it reports the processed findings of the selected files, prints the JSON report or a text report with the summary and verdict, and exits with the status the findings call for |
| Pipeline.CollectedSeverities | scripts/privacy-scan.py:279-281 | every collected finding carries a severity name |
| Pipeline.SubsequenceSeverities | scripts/privacy-scan.py:284 | findings kept from a list with severity names have severity names |
| Pipeline.KeysOfPermutation | scripts/privacy-scan.py:286 | reordering the findings does not change their keys |
| Pipeline.SubsequenceKeysUnique | scripts/privacy-scan.py:285 | filtering keeps keys unique |
| Pipeline.InsertKeysUnique | scripts/privacy-scan.py:286 | inserting a finding with a new key keeps keys unique |
| Pipeline.SortKeysUnique | scripts/privacy-scan.py:286 | sorting keeps keys unique |
| Pipeline.ProcessedReport | scripts/privacy-scan.py:284-286 | the reported findings are sorted by (rank, file, line), share no key, each is one of the input findings with a rank within the minimum, and are as a multiset exactly the deduplicated findings the filter keeps |
| Pipeline.ProcessedFailsOnlyOnMinimum | scripts/privacy-scan.py:284-286 | for findings the scanner produced, deduplicating, filtering and sorting fails exactly when the lower-cased minimum is not a severity name |

## Left out

- The directory walk, `is_file` and `read_text` are I/O. `get_files` takes the listing `rglob('*')` yields and whether the root is a file; `scan_file` takes the text it read, or `None` when reading failed.
- The warning `scan_file` prints on stderr when a read fails is output only; the model keeps the empty result.
- Python's `re.search` and the meaning of the patterns are not modelled. Matching is the `matcher` parameter, and the tables are kept as their source text.
- `argparse`, `print` and `sys.exit` are process glue. `RunScan` takes the path, the output format and the `--severity` value as given, models the `choices` test on `--severity` as `Err(InvalidChoice(...))`, and returns the output value and the exit status instead of printing and exiting. The parser's usage text, its check of `--output` (modelled as the flag `json`) and its own exit status 2 are not modelled.
- `json.dumps` formatting and the `asdict` conversion are not modelled; `FormatJsonReport` keeps the summary, `passed` and the findings.
- The text report's banner, blank lines, emoji, `SEVERITY.upper()` text and its per-file blocks (`by_file`, the files and lines sorted for display) are presentation; `FormatTextReport` keeps the summary lines and the verdict line.
- `Strings.LowerChar`: maps only the ASCII capitals and the Kelvin sign, the characters whose lower case is plain ASCII; every other character is left as it is, where Python may change it (`İ` even becomes two characters). A string that is a severity name or a scanned extension is plain ASCII, so whether the lowered text equals one comes out as in Python (`Strings.LowerSpec` states the two mappings this rests on). For the matcher's input the difference only changes which text the abstract matcher sees.
- `FileFilter.ShouldScanFile`: paths are POSIX paths (an anchor of `/` or nothing, then names). Windows drive letters and pathlib's normalisation of `.` and repeated slashes are not modelled.
- `Sorting.SortFindings`: requires every severity to be a severity name. Python's sort would raise `ValueError` on any other; in `main` the filter has already failed on such a finding.
- `Findings.Rank`: requires a severity name; the `ValueError` of `.index` on another string is modelled by `SeverityFilter.Retain` and `SeverityFilter.FilterBySeverity`.
- Integer widths do not matter here: Python integers are unbounded and so are Dafny's.
