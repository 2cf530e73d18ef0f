/**
  `main` without its argument parsing and printing: scan every selected
  file, deduplicate, filter by the minimum severity, sort, build the report
  and compute the exit status.
 */
module Pipeline {
  import opened Wrappers
  import opened Strings
  import opened Sequences
  import opened Findings
  import opened FileFilter
  import opened Patterns
  import opened Scanner
  import opened ScannerFacts
  import opened Dedup
  import opened SeverityFilter
  import opened Sorting
  import opened Report

  /** `all_findings`: the findings of each file in turn, the file named by `str(path)`. */
  function Collected(files: seq<Path>, read: Path -> Option<string>, matcher: Matcher): seq<Finding>
  {
    if files == [] then []
    else
      var last := files[|files| - 1];
      Collected(files[..|files| - 1], read, matcher) + FileFindings(last.Text(), read(last), Rules, matcher)
  }

  /** Deduplicate, filter, then sort, as `main` does; the filter's failure stops the run. */
  function Processed(all: seq<Finding>, minSeverity: string): (r: Result<seq<Finding>, Error>)
    ensures r.Ok? ==> AllSeverities(r.value)
  {
    match FilterBySeverity(Deduplicated(all), minSeverity)
    case Err(e) => Err(e)
    case Ok(kept) =>
      FilterBySeverityKeeps(Deduplicated(all), minSeverity);
      Ok(Sort(kept))
  }

  /** What `main` prints: one of the two reports. */
  datatype Output = Json(json: JsonReport) | Text(text: TextReport)

  /** The result of a run that did not fail: the findings reported, the output and the exit status. */
  datatype Outcome = Outcome(findings: seq<Finding>, output: Output, exitCode: int)

  /**
    What `argparse` does with a `--severity` value that is not one of its
    choices: it prints the usage and exits with status 2.
   */
  datatype UsageError = InvalidChoice(value: string)

  /**
    `main`. The walk, the file reads and the regular-expression engine are
    parameters: `listing` is what `rglob('*')` yields under `root`, `read` the
    text of a file or `None` when it cannot be read, `matcher` the search.
    `minSeverity` is the `--severity` argument as given: `argparse` accepts
    only the four names, exactly as written, and rejects any other value
    before a file is read, so the filter never fails here.
   */
  method RunScan(root: Path, rootIsFile: bool, listing: seq<Entry>, read: Path -> Option<string>,
    minSeverity: string, json: bool, matcher: Matcher) returns (r: Result<Outcome, UsageError>)
    ensures r.Err? <==> minSeverity !in SeverityOrder
    ensures r.Err? ==> r.error == InvalidChoice(minSeverity)
    ensures r.Ok? ==>
      Processed(Collected(GetFiles(root, rootIsFile, listing), read, matcher), minSeverity) == Ok(r.value.findings)
    ensures r.Ok? ==> r.value.exitCode == ExitCode(r.value.findings)
    ensures r.Ok? && json ==> r.value.output == Json(FormatJsonReport(r.value.findings))
    ensures r.Ok? && !json ==>
      && r.value.output.Text?
      && (r.value.output.text == NoIssues <==> r.value.findings == [])
      && (r.value.output.text.Issues? ==>
            && r.value.output.text.summary == SummaryLines(r.value.findings, SeverityOrder)
            && (r.value.output.text.failed <==> r.value.exitCode == 1))
  {
    if minSeverity !in SeverityOrder {
      return Err(InvalidChoice(minSeverity));
    }
    SeverityOrderNames(minSeverity);
    LowerSeverityName(minSeverity);
    var files := GetFiles(root, rootIsFile, listing);
    var all := CollectFindings(files, read, matcher);
    CollectedSeverities(files, read, matcher);
    var unique := DeduplicateFindings(all);
    DeduplicatedInInputOrder(all);
    SubsequenceSeverities(unique, all);
    var filtered := FilterBySeverity(unique, minSeverity);
    var kept := filtered.value;
    FilterBySeverityKeeps(unique, minSeverity);
    var findings := SortInPlace(kept);
    var code := ExitCode(findings);
    var output: Output;
    if json {
      output := Json(FormatJsonReport(findings));
    } else {
      var text := FormatTextReport(findings);
      output := Text(text);
    }
    r := Ok(Outcome(findings, output, code));
  }

  /** `findings.sort(...)`: the list is sorted in place, as an array. */
  method SortInPlace(kept: seq<Finding>) returns (findings: seq<Finding>)
    requires AllSeverities(kept)
    ensures findings == Sort(kept)
  {
    var a := new Finding[|kept|](i requires 0 <= i < |kept| => kept[i]);
    assert a[..] == kept;
    SortFindings(a);
    findings := a[..];
  }

  /** The loop of `main` that extends `all_findings` with each file's findings. */
  method CollectFindings(files: seq<Path>, read: Path -> Option<string>, matcher: Matcher)
    returns (all: seq<Finding>)
    ensures all == Collected(files, read, matcher)
  {
    all := [];
    var i := 0;
    while i < |files|
      invariant 0 <= i <= |files|
      invariant all == Collected(files[..i], read, matcher)
    {
      var path := files[i];
      var found := ScanFile(path.Text(), read(path), Rules, matcher);
      assert files[..i + 1][..i] == files[..i];
      all := all + found;
      i := i + 1;
    }
    assert files[..i] == files;
  }

  /** Every collected finding carries a severity name, so only the minimum can make the filter fail. */
  lemma {:induction false} CollectedSeverities(files: seq<Path>, read: Path -> Option<string>, matcher: Matcher)
    ensures AllSeverities(Collected(files, read, matcher))
  {
    if files != [] {
      var last := files[|files| - 1];
      CollectedSeverities(files[..|files| - 1], read, matcher);
      FileFindingsBounds(last.Text(), read(last), Rules, matcher);
    }
  }

  /** A subsequence of findings with severity names has severity names. */
  lemma SubsequenceSeverities(a: seq<Finding>, b: seq<Finding>)
    requires Subsequence(a, b) && AllSeverities(b)
    ensures AllSeverities(a)
  {
    SubsequenceMembers(a, b);
    forall i | 0 <= i < |a|
      ensures IsSeverity(a[i].severity)
    {
      assert a[i] in b;
    }
  }

  /** Keys stay unique after appending exactly when the new key is not already there. */
  lemma KeysUniqueSnoc(fs: seq<Finding>, f: Finding)
    ensures KeysUnique(fs + [f]) <==> KeysUnique(fs) && KeyOf(f) !in Keys(fs)
  {
    var s := fs + [f];
    if KeysUnique(s) {
      forall i, j | 0 <= i < j < |fs|
        ensures KeyOf(fs[i]) != KeyOf(fs[j])
      {
        assert s[i] == fs[i] && s[j] == fs[j];
      }
      forall i | 0 <= i < |fs|
        ensures KeyOf(fs[i]) != KeyOf(f)
      {
        assert s[i] == fs[i] && s[|fs|] == f;
      }
    }
  }

  /** Sequences holding the same findings have the same keys. */
  lemma KeysOfPermutation(a: seq<Finding>, b: seq<Finding>)
    requires multiset(a) == multiset(b)
    ensures Keys(a) == Keys(b)
  {
    forall k | k in Keys(a)
      ensures k in Keys(b)
    {
      var i :| 0 <= i < |a| && KeyOf(a[i]) == k;
      assert a[i] in multiset(b);
      var j :| 0 <= j < |b| && b[j] == a[i];
    }
    forall k | k in Keys(b)
      ensures k in Keys(a)
    {
      var j :| 0 <= j < |b| && KeyOf(b[j]) == k;
      assert b[j] in multiset(a);
      var i :| 0 <= i < |a| && a[i] == b[j];
    }
  }

  /** Removing findings keeps the keys unique. */
  lemma {:induction false} SubsequenceKeysUnique(a: seq<Finding>, b: seq<Finding>)
    requires Subsequence(a, b) && KeysUnique(b)
    ensures KeysUnique(a)
    decreases |b|
  {
    if a != [] {
      var b' := b[..|b| - 1];
      var y := b[|b| - 1];
      assert b == b' + [y];
      KeysUniqueSnoc(b', y);
      if a[|a| - 1] == y && Subsequence(a[..|a| - 1], b') {
        var a' := a[..|a| - 1];
        SubsequenceKeysUnique(a', b');
        SubsequenceMembers(a', b');
        assert a == a' + [y];
        if KeyOf(y) in Keys(a') {
          var i :| 0 <= i < |a'| && KeyOf(a'[i]) == KeyOf(y);
          assert a'[i] in b';
        }
        KeysUniqueSnoc(a', y);
      } else {
        SubsequenceKeysUnique(a, b');
      }
    }
  }

  /** Inserting a finding with a new key keeps the keys unique. */
  lemma {:induction false} InsertKeysUnique(t: seq<Finding>, x: Finding)
    requires AllSeverities(t) && IsSeverity(x.severity)
    requires KeysUnique(t) && KeyOf(x) !in Keys(t)
    ensures KeysUnique(Insert(t, x))
  {
    if t != [] {
      var init := t[..|t| - 1];
      var last := t[|t| - 1];
      assert t == init + [last];
      KeysUniqueSnoc(init, last);
      KeysSnoc(init, last);
      if FLe(last, x) {
        KeysUniqueSnoc(t, x);
      } else {
        InsertKeysUnique(init, x);
        InsertPermutes(init, x);
        KeysOfPermutation(Insert(init, x), init + [x]);
        KeysSnoc(init, x);
        KeysUniqueSnoc(Insert(init, x), last);
      }
    }
  }

  /** Sorting keeps the keys unique. */
  lemma {:induction false} SortKeysUnique(s: seq<Finding>)
    requires AllSeverities(s) && KeysUnique(s)
    ensures KeysUnique(Sort(s))
  {
    if s != [] {
      var init := s[..|s| - 1];
      var last := s[|s| - 1];
      assert s == init + [last];
      KeysUniqueSnoc(init, last);
      SortKeysUnique(init);
      SortPermutes(init);
      KeysOfPermutation(Sort(init), init);
      InsertKeysUnique(Sort(init), last);
    }
  }

  /**
    What `main` reports: sorted by (rank, file, line), no two findings sharing
    a (file, line, category) key, every finding at least as severe as the
    minimum, and exactly the deduplicated findings that pass the filter, each
    as often as there.
   */
  lemma ProcessedReport(all: seq<Finding>, minSeverity: string)
    requires Processed(all, minSeverity).Ok?
    ensures var out := Processed(all, minSeverity).value;
      Sorted(out) && KeysUnique(out)
      && multiset(out) == multiset(FilterBySeverity(Deduplicated(all), minSeverity).value)
      && forall f :: f in out ==> f in all && Rank(f.severity) <= Rank(Lower(minSeverity))
  {
    var unique := Deduplicated(all);
    var kept := FilterBySeverity(unique, minSeverity).value;
    FilterBySeverityKeeps(unique, minSeverity);
    var out := Sort(kept);
    SortSorted(kept);
    SortPermutes(kept);
    DeduplicatedKeysUnique(all);
    SubsequenceKeysUnique(kept, unique);
    SortKeysUnique(kept);
    DeduplicatedInInputOrder(all);
    SubsequenceMembers(unique, all);
    forall f | f in out
      ensures f in all && Rank(f.severity) <= Rank(Lower(minSeverity))
    {
      assert f in multiset(kept);
    }
  }

  /**
    For findings the scanner produced, the run fails exactly when the minimum
    severity is unknown.
   */
  lemma ProcessedFailsOnlyOnMinimum(files: seq<Path>, read: Path -> Option<string>, matcher: Matcher, minSeverity: string)
    ensures Processed(Collected(files, read, matcher), minSeverity).Err? <==> !IsSeverity(Lower(minSeverity))
  {
    var all := Collected(files, read, matcher);
    CollectedSeverities(files, read, matcher);
    DeduplicatedInInputOrder(all);
    SubsequenceSeverities(Deduplicated(all), all);
  }
}
