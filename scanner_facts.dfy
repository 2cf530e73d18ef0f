/**
  What `scan_file` reports, whatever the regular-expression engine answers:
  exactly one finding per match on a line that is not a comment, each
  carrying its 1-based line number, the stripped line cut to 100 characters
  and one of the three category/severity pairings, in line order.
 */
module ScannerFacts {
  import opened Wrappers
  import opened Strings
  import opened Findings
  import opened Patterns
  import opened Scanner

  /** `f` is what one of the three tables reports for a match on `line`, numbered `lineNum`. */
  predicate Reported(file: string, lineNum: int, line: string, rules: RuleSet, matcher: Matcher, f: Finding)
  {
    (exists e :: e in rules.piiFields && matcher(e.pattern, Lower(line)) && f == PiiFinding(file, lineNum, line, e))
    || (f == LogFinding(file, lineNum, line) && exists p :: p in rules.logs && matcher(p, Lower(line)))
    || (f == StorageFinding(file, lineNum, line) && exists p :: p in rules.storage && matcher(p, Lower(line)))
  }

  /** The PII-field table reports a finding exactly for each entry whose pattern matches. */
  lemma {:induction false} PiiFieldFindingsMembers(file: string, lineNum: int, line: string, table: seq<PiiPattern>, matcher: Matcher)
    ensures forall f :: f in PiiFieldFindings(file, lineNum, line, table, matcher) <==>
      exists e :: e in table && matcher(e.pattern, Lower(line)) && f == PiiFinding(file, lineNum, line, e)
  {
    if table != [] {
      var init := table[..|table| - 1];
      PiiFieldFindingsMembers(file, lineNum, line, init, matcher);
      assert table == init + [table[|table| - 1]];
    }
  }

  /** A pattern table reports its finding exactly when one of its patterns matches. */
  lemma {:induction false} PatternFindingsMembers(patterns: seq<string>, line: string, matcher: Matcher, finding: Finding)
    ensures forall f :: f in PatternFindings(patterns, line, matcher, finding) <==>
      f == finding && exists p :: p in patterns && matcher(p, Lower(line))
  {
    if patterns != [] {
      var init := patterns[..|patterns| - 1];
      PatternFindingsMembers(init, line, matcher, finding);
      assert patterns == init + [patterns[|patterns| - 1]];
    }
  }

  /** One line yields exactly the matches of the three tables, and nothing when it is a comment. */
  lemma LineFindingsMembers(file: string, lineNum: int, line: string, rules: RuleSet, matcher: Matcher)
    ensures forall f :: f in LineFindings(file, lineNum, line, rules, matcher) <==>
      !IsComment(Strip(line)) && Reported(file, lineNum, line, rules, matcher, f)
  {
    PiiFieldFindingsMembers(file, lineNum, line, rules.piiFields, matcher);
    PatternFindingsMembers(rules.logs, line, matcher, LogFinding(file, lineNum, line));
    PatternFindingsMembers(rules.storage, line, matcher, StorageFinding(file, lineNum, line));
  }

  /** The category/severity pairings `scan_file` can produce. */
  predicate WellFormed(rules: RuleSet, f: Finding)
  {
    (f.category == "pii_field" && exists e :: e in rules.piiFields && f.severity == e.severity.Value())
    || (f.category == "pii_in_logs" && f.severity == "high")
    || (f.category == "unencrypted_pii" && f.severity == "critical")
  }

  /**
    Every finding a line reports carries that line's file and number, the
    stripped line cut to 100 characters, a severity name and one of the
    three category/severity pairings.
   */
  lemma ReportedShape(file: string, lineNum: int, line: string, rules: RuleSet, matcher: Matcher, f: Finding)
    requires Reported(file, lineNum, line, rules, matcher, f)
    ensures f.file == file && f.line == lineNum
    ensures f.codeSnippet == Snippet(line) && |f.codeSnippet| <= 100
    ensures WellFormed(rules, f) && IsSeverity(f.severity)
  {
  }

  /** Every finding of `lines` is a match reported on a non-comment line of `lines`. */
  lemma {:induction false} LinesFindingsSound(file: string, lines: seq<string>, rules: RuleSet, matcher: Matcher, f: Finding)
    requires f in LinesFindings(file, lines, rules, matcher)
    ensures 1 <= f.line <= |lines| && !IsComment(Strip(lines[f.line - 1]))
      && Reported(file, f.line, lines[f.line - 1], rules, matcher, f)
  {
    var init := lines[..|lines| - 1];
    var n := |lines|;
    if f in LineFindings(file, n, lines[n - 1], rules, matcher) {
      LineFindingReported(file, n, lines[n - 1], rules, matcher, f);
    } else {
      assert f in LinesFindings(file, init, rules, matcher);
      LinesFindingsSound(file, init, rules, matcher, f);
      assert lines[f.line - 1] == init[f.line - 1];
    }
  }

  /** Every match reported on a non-comment line of `lines` is among its findings. */
  lemma {:induction false} LinesFindingsComplete(file: string, lines: seq<string>, rules: RuleSet, matcher: Matcher, f: Finding)
    requires 1 <= f.line <= |lines| && !IsComment(Strip(lines[f.line - 1]))
    requires Reported(file, f.line, lines[f.line - 1], rules, matcher, f)
    ensures f in LinesFindings(file, lines, rules, matcher)
  {
    var init := lines[..|lines| - 1];
    var n := |lines|;
    if f.line < n {
      assert lines[f.line - 1] == init[f.line - 1];
      LinesFindingsComplete(file, init, rules, matcher, f);
      LinesFindingsExtend(file, lines, rules, matcher, f);
    } else {
      ReportedInLine(file, n, lines[n - 1], rules, matcher, f);
    }
  }

  /** A finding of all lines but the last is a finding of all lines. */
  lemma LinesFindingsExtend(file: string, lines: seq<string>, rules: RuleSet, matcher: Matcher, f: Finding)
    requires lines != [] && f in LinesFindings(file, lines[..|lines| - 1], rules, matcher)
    ensures f in LinesFindings(file, lines, rules, matcher)
  {
  }

  /** A finding of one line is a match reported on it, numbered with its number. */
  lemma LineFindingReported(file: string, lineNum: int, line: string, rules: RuleSet, matcher: Matcher, f: Finding)
    requires f in LineFindings(file, lineNum, line, rules, matcher)
    ensures !IsComment(Strip(line)) && Reported(file, lineNum, line, rules, matcher, f) && f.line == lineNum
  {
    LineFindingsMembers(file, lineNum, line, rules, matcher);
    ReportedShape(file, lineNum, line, rules, matcher, f);
  }

  /** A match reported on a non-comment line is among that line's findings. */
  lemma ReportedInLine(file: string, lineNum: int, line: string, rules: RuleSet, matcher: Matcher, f: Finding)
    requires !IsComment(Strip(line)) && Reported(file, lineNum, line, rules, matcher, f)
    ensures f in LineFindings(file, lineNum, line, rules, matcher)
  {
    LineFindingsMembers(file, lineNum, line, rules, matcher);
  }

  /**
    The findings of `lines` are exactly the matches reported on its non-comment
    lines, line `n` being `lines[n - 1]`.
   */
  lemma LinesFindingsMembers(file: string, lines: seq<string>, rules: RuleSet, matcher: Matcher)
    ensures forall f :: f in LinesFindings(file, lines, rules, matcher) <==>
      1 <= f.line <= |lines| && !IsComment(Strip(lines[f.line - 1]))
      && Reported(file, f.line, lines[f.line - 1], rules, matcher, f)
  {
    forall f | f in LinesFindings(file, lines, rules, matcher)
      ensures 1 <= f.line <= |lines| && !IsComment(Strip(lines[f.line - 1]))
        && Reported(file, f.line, lines[f.line - 1], rules, matcher, f)
    {
      LinesFindingsSound(file, lines, rules, matcher, f);
    }
    forall f: Finding | 1 <= f.line <= |lines| && !IsComment(Strip(lines[f.line - 1]))
        && Reported(file, f.line, lines[f.line - 1], rules, matcher, f)
      ensures f in LinesFindings(file, lines, rules, matcher)
    {
      LinesFindingsComplete(file, lines, rules, matcher, f);
    }
  }

  /** Every finding of one line carries that line's file and number. */
  lemma LineFindingsAt(file: string, lineNum: int, line: string, rules: RuleSet, matcher: Matcher)
    ensures forall f :: f in LineFindings(file, lineNum, line, rules, matcher) ==>
      f.file == file && f.line == lineNum
  {
    LineFindingsMembers(file, lineNum, line, rules, matcher);
    forall f | f in LineFindings(file, lineNum, line, rules, matcher)
      ensures f.file == file && f.line == lineNum
    {
      ReportedShape(file, lineNum, line, rules, matcher, f);
    }
  }

  /** Every finding of `lines` carries the file and a line number between 1 and `|lines|`. */
  lemma LinesFindingsAt(file: string, lines: seq<string>, rules: RuleSet, matcher: Matcher)
    ensures forall f :: f in LinesFindings(file, lines, rules, matcher) ==>
      f.file == file && 1 <= f.line <= |lines|
  {
    LinesFindingsMembers(file, lines, rules, matcher);
    forall f | f in LinesFindings(file, lines, rules, matcher)
      ensures f.file == file
    {
      ReportedShape(file, f.line, lines[f.line - 1], rules, matcher, f);
    }
  }

  /** The line numbers of `fs` never decrease. */
  predicate InLineOrder(fs: seq<Finding>)
  {
    forall i, j :: 0 <= i < j < |fs| ==> fs[i].line <= fs[j].line
  }

  /** Findings come out line after line: their line numbers never decrease. */
  lemma {:induction false} LinesFindingsInLineOrder(file: string, lines: seq<string>, rules: RuleSet, matcher: Matcher)
    ensures InLineOrder(LinesFindings(file, lines, rules, matcher))
  {
    if lines != [] {
      var init := lines[..|lines| - 1];
      var n := |lines|;
      var a := LinesFindings(file, init, rules, matcher);
      var b := LineFindings(file, n, lines[n - 1], rules, matcher);
      var r := LinesFindings(file, lines, rules, matcher);
      assert r == a + b;
      LinesFindingsInLineOrder(file, init, rules, matcher);
      LinesFindingsAt(file, init, rules, matcher);
      LineFindingsAt(file, n, lines[n - 1], rules, matcher);
      forall i | 0 <= i < |r|
        ensures i < |a| ==> r[i].line < n
        ensures i >= |a| ==> r[i].line == n
      {
        if i < |a| {
          assert r[i] == a[i] && a[i] in a;
        } else {
          assert r[i] == b[i - |a|] && b[i - |a|] in b;
        }
      }
      forall i, j | 0 <= i < j < |r|
        ensures r[i].line <= r[j].line
      {
        if j < |a| {
          assert r[i] == a[i] && r[j] == a[j];
          assert a[i].line <= a[j].line;
        } else if i < |a| {
          assert r[i].line < n && r[j].line == n;
        } else {
          assert r[i].line == n && r[j].line == n;
        }
      }
    }
  }

  /**
    Each finding of `lines` is the report of a match on its own line, which is
    not a comment: the snippet is that line stripped and cut to 100
    characters, the severity is a severity name and the category/severity
    pairing is one of the three.
   */
  lemma LinesFindingsShape(file: string, lines: seq<string>, rules: RuleSet, matcher: Matcher)
    ensures forall f :: f in LinesFindings(file, lines, rules, matcher) ==>
      f.file == file && 1 <= f.line <= |lines| && !IsComment(Strip(lines[f.line - 1]))
      && f.codeSnippet == Snippet(lines[f.line - 1]) && |f.codeSnippet| <= 100
      && WellFormed(rules, f) && IsSeverity(f.severity)
  {
    LinesFindingsMembers(file, lines, rules, matcher);
    forall f | f in LinesFindings(file, lines, rules, matcher)
      ensures f.file == file && f.codeSnippet == Snippet(lines[f.line - 1]) && |f.codeSnippet| <= 100
        && WellFormed(rules, f) && IsSeverity(f.severity)
    {
      ReportedShape(file, f.line, lines[f.line - 1], rules, matcher, f);
    }
  }

  /** Every finding of `lines` carries one of the four severity names. */
  lemma LinesFindingsSeverities(file: string, lines: seq<string>, rules: RuleSet, matcher: Matcher)
    ensures AllSeverities(LinesFindings(file, lines, rules, matcher))
  {
    var r := LinesFindings(file, lines, rules, matcher);
    LinesFindingsShape(file, lines, rules, matcher);
    forall i | 0 <= i < |r|
      ensures IsSeverity(r[i].severity)
    {
      assert r[i] in r;
    }
  }

  /**
    The bounds of `scan_file`'s output: an unreadable file yields nothing;
    otherwise every finding belongs to the scanned file, its line number lies
    between 1 and the number of `'\n'`-separated lines, that line is not a
    comment, the snippet is the stripped line cut to 100 characters, the
    category/severity pairing is one of the three, and the line numbers never
    decrease.
   */
  lemma FileFindingsBounds(file: string, content: Option<string>, rules: RuleSet, matcher: Matcher)
    ensures content.None? ==> FileFindings(file, content, rules, matcher) == []
    ensures content.Some? ==>
      var lines := Split(content.value, '\n');
      forall f :: f in FileFindings(file, content, rules, matcher) ==>
        f.file == file && 1 <= f.line <= |lines| && !IsComment(Strip(lines[f.line - 1]))
        && f.codeSnippet == Snippet(lines[f.line - 1]) && |f.codeSnippet| <= 100
        && WellFormed(rules, f) && IsSeverity(f.severity)
    ensures var r := FileFindings(file, content, rules, matcher);
      AllSeverities(r) && InLineOrder(r)
  {
    if content.Some? {
      var lines := Split(content.value, '\n');
      assert FileFindings(file, content, rules, matcher) == LinesFindings(file, lines, rules, matcher);
      LinesFindingsShape(file, lines, rules, matcher);
      LinesFindingsSeverities(file, lines, rules, matcher);
      LinesFindingsInLineOrder(file, lines, rules, matcher);
    }
  }

  /**
    Completeness for the PII-field table: an entry whose pattern matches a
    line that is not a comment is reported with that line's number.
   */
  lemma PiiMatchIsReported(file: string, lines: seq<string>, rules: RuleSet, matcher: Matcher, n: int, e: PiiPattern)
    requires 1 <= n <= |lines| && !IsComment(Strip(lines[n - 1]))
    requires e in rules.piiFields && matcher(e.pattern, Lower(lines[n - 1]))
    ensures PiiFinding(file, n, lines[n - 1], e) in LinesFindings(file, lines, rules, matcher)
  {
    var f := PiiFinding(file, n, lines[n - 1], e);
    assert f.line == n;
    assert Reported(file, n, lines[n - 1], rules, matcher, f);
    LinesFindingsComplete(file, lines, rules, matcher, f);
  }

  /**
    Completeness for the logging table: a logging pattern that matches a line
    that is not a comment makes that line report PII in logs.
   */
  lemma LogMatchIsReported(file: string, lines: seq<string>, rules: RuleSet, matcher: Matcher, n: int, p: string)
    requires 1 <= n <= |lines| && !IsComment(Strip(lines[n - 1]))
    requires p in rules.logs && matcher(p, Lower(lines[n - 1]))
    ensures LogFinding(file, n, lines[n - 1]) in LinesFindings(file, lines, rules, matcher)
  {
    var f := LogFinding(file, n, lines[n - 1]);
    assert f.line == n;
    assert Reported(file, n, lines[n - 1], rules, matcher, f);
    LinesFindingsComplete(file, lines, rules, matcher, f);
  }

  /**
    Completeness for the storage table: a storage pattern that matches a line
    that is not a comment makes that line report unencrypted PII.
   */
  lemma StorageMatchIsReported(file: string, lines: seq<string>, rules: RuleSet, matcher: Matcher, n: int, p: string)
    requires 1 <= n <= |lines| && !IsComment(Strip(lines[n - 1]))
    requires p in rules.storage && matcher(p, Lower(lines[n - 1]))
    ensures StorageFinding(file, n, lines[n - 1]) in LinesFindings(file, lines, rules, matcher)
  {
    var f := StorageFinding(file, n, lines[n - 1]);
    assert f.line == n;
    assert Reported(file, n, lines[n - 1], rules, matcher, f);
    LinesFindingsComplete(file, lines, rules, matcher, f);
  }
}
