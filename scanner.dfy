/**
  `scan_file`: one pass over the lines of a file. Comment lines are skipped;
  on every other line each matching PII-field pattern, each matching logging
  pattern and each matching storage pattern adds one finding for that line.
 */
module Scanner {
  import opened Wrappers
  import opened Strings
  import opened Findings
  import opened Patterns

  /**
    `re.search(pattern, text)` reduced to its answer: whether `pattern` is found
    somewhere in `text`. It is a parameter, so every result below holds
    whatever the regular-expression engine answers.
   */
  type Matcher = (string, string) -> bool

  /** A stripped line starting with `//`, `#` or `*` is a comment and is not scanned. */
  predicate IsComment(stripped: string)
  {
    StartsWith(stripped, "//") || StartsWith(stripped, "#") || StartsWith(stripped, "*")
  }

  /** `line.strip()[:100]`. */
  function Snippet(line: string): (r: string)
    ensures |r| <= 100 && r <= Strip(line)
    ensures |Strip(line)| <= 100 ==> r == Strip(line)
    ensures |Strip(line)| > 100 ==> |r| == 100
  {
    Take(Strip(line), 100)
  }

  /** The finding a matching PII-field pattern reports for line number `lineNum`. */
  function PiiFinding(file: string, lineNum: int, line: string, entry: PiiPattern): Finding
  {
    Finding(file, lineNum, entry.severity.Value(), "pii_field",
      "Potential " + entry.piiType + " field detected", Snippet(line),
      "Ensure " + entry.piiType + " data is encrypted and access is logged")
  }

  /** The finding a matching logging pattern reports. */
  function LogFinding(file: string, lineNum: int, line: string): Finding
  {
    Finding(file, lineNum, High.Value(), "pii_in_logs", "Potential PII being logged",
      Snippet(line), "Remove PII from log statements or use masking")
  }

  /** The finding a matching storage pattern reports. */
  function StorageFinding(file: string, lineNum: int, line: string): Finding
  {
    Finding(file, lineNum, Critical.Value(), "unencrypted_pii", "Potential unencrypted PII storage",
      Snippet(line), "Encrypt sensitive data before storage")
  }

  /** One finding per entry of `table` that matches the lower-cased line, in table order. */
  function PiiFieldFindings(file: string, lineNum: int, line: string, table: seq<PiiPattern>, matcher: Matcher): seq<Finding>
  {
    if table == [] then []
    else
      var last := table[|table| - 1];
      PiiFieldFindings(file, lineNum, line, table[..|table| - 1], matcher)
      + (if matcher(last.pattern, Lower(line)) then [PiiFinding(file, lineNum, line, last)] else [])
  }

  /** One copy of `finding` per pattern of `patterns` that matches the lower-cased line. */
  function PatternFindings(patterns: seq<string>, line: string, matcher: Matcher, finding: Finding): seq<Finding>
  {
    if patterns == [] then []
    else
      PatternFindings(patterns[..|patterns| - 1], line, matcher, finding)
      + (if matcher(patterns[|patterns| - 1], Lower(line)) then [finding] else [])
  }

  /** The findings of one line: none for a comment, else the three tables' in turn. */
  function LineFindings(file: string, lineNum: int, line: string, rules: RuleSet, matcher: Matcher): seq<Finding>
  {
    if IsComment(Strip(line)) then []
    else
      PiiFieldFindings(file, lineNum, line, rules.piiFields, matcher)
      + PatternFindings(rules.logs, line, matcher, LogFinding(file, lineNum, line))
      + PatternFindings(rules.storage, line, matcher, StorageFinding(file, lineNum, line))
  }

  /** The findings of `lines`, numbered from 1, line after line. */
  function LinesFindings(file: string, lines: seq<string>, rules: RuleSet, matcher: Matcher): seq<Finding>
  {
    if lines == [] then []
    else
      LinesFindings(file, lines[..|lines| - 1], rules, matcher)
      + LineFindings(file, |lines|, lines[|lines| - 1], rules, matcher)
  }

  /** What `scan_file` returns: nothing for an unreadable file, else the findings of its `'\n'`-separated lines. */
  function FileFindings(file: string, content: Option<string>, rules: RuleSet, matcher: Matcher): seq<Finding>
  {
    match content
    case None => []
    case Some(text) => LinesFindings(file, Split(text, '\n'), rules, matcher)
  }

  /** The loop over the PII-field table: a finding per entry whose pattern matches `lineLower`. */
  method ScanPiiFields(file: string, lineNum: int, line: string, lineLower: string, table: seq<PiiPattern>, matcher: Matcher)
    returns (found: seq<Finding>)
    requires lineLower == Lower(line)
    ensures found == PiiFieldFindings(file, lineNum, line, table, matcher)
  {
    found := [];
    var k := 0;
    while k < |table|
      invariant 0 <= k <= |table|
      invariant found == PiiFieldFindings(file, lineNum, line, table[..k], matcher)
    {
      var entry := table[k];
      assert table[..k + 1][..k] == table[..k];
      if matcher(entry.pattern, lineLower) {
        found := found + [PiiFinding(file, lineNum, line, entry)];
      }
      k := k + 1;
    }
    assert table[..k] == table;
  }

  /** The loop over the logging or the storage table: a copy of `finding` per pattern that matches `lineLower`. */
  method ScanPatterns(patterns: seq<string>, line: string, lineLower: string, matcher: Matcher, finding: Finding)
    returns (found: seq<Finding>)
    requires lineLower == Lower(line)
    ensures found == PatternFindings(patterns, line, matcher, finding)
  {
    found := [];
    var k := 0;
    while k < |patterns|
      invariant 0 <= k <= |patterns|
      invariant found == PatternFindings(patterns[..k], line, matcher, finding)
    {
      assert patterns[..k + 1][..k] == patterns[..k];
      if matcher(patterns[k], lineLower) {
        found := found + [finding];
      }
      k := k + 1;
    }
    assert patterns[..k] == patterns;
  }

  /**
    The body of `scan_file`'s loop for one line: a comment line is skipped,
    otherwise each table is tried in turn, appending a finding per match.
   */
  method ScanLine(file: string, lineNum: int, line: string, rules: RuleSet, matcher: Matcher)
    returns (found: seq<Finding>)
    ensures found == LineFindings(file, lineNum, line, rules, matcher)
  {
    var lineLower := Lower(line);
    var stripped := Strip(line);
    if IsComment(stripped) {
      return [];
    }
    var fields := ScanPiiFields(file, lineNum, line, lineLower, rules.piiFields, matcher);
    var logs := ScanPatterns(rules.logs, line, lineLower, matcher, LogFinding(file, lineNum, line));
    var storage := ScanPatterns(rules.storage, line, lineLower, matcher, StorageFinding(file, lineNum, line));
    found := fields + logs + storage;
  }

  /** The findings of the first `n + 1` lines are those of the first `n` followed by line `n + 1`'s. */
  lemma LinesFindingsStep(file: string, lines: seq<string>, n: nat, rules: RuleSet, matcher: Matcher)
    requires n < |lines|
    ensures LinesFindings(file, lines[..n + 1], rules, matcher)
      == LinesFindings(file, lines[..n], rules, matcher) + LineFindings(file, n + 1, lines[n], rules, matcher)
  {
    assert lines[..n + 1][..n] == lines[..n];
  }

  /** `scan_file`'s loop over the lines of the file, numbering them from 1. */
  method ScanLines(file: string, lines: seq<string>, rules: RuleSet, matcher: Matcher)
    returns (findings: seq<Finding>)
    ensures findings == LinesFindings(file, lines, rules, matcher)
  {
    findings := [];
    var n := 0;
    while n < |lines|
      invariant 0 <= n <= |lines|
      invariant findings == LinesFindings(file, lines[..n], rules, matcher)
    {
      var found := ScanLine(file, n + 1, lines[n], rules, matcher);
      LinesFindingsStep(file, lines, n, rules, matcher);
      findings := findings + found;
      n := n + 1;
    }
    assert lines[..n] == lines;
  }

  /**
    `scan_file`. `content` is the file's text as read, or `None` when reading
    failed; `file` is `str(file_path)`; `rules` are the tables (`Rules`).
   */
  method ScanFile(file: string, content: Option<string>, rules: RuleSet, matcher: Matcher)
    returns (findings: seq<Finding>)
    ensures findings == FileFindings(file, content, rules, matcher)
  {
    if content.None? {
      return [];
    }
    var lines := Split(content.value, '\n');
    findings := ScanLines(file, lines, rules, matcher);
  }
}
