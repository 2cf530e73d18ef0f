/**
  What the two reports and the exit code carry: the per-severity summary,
  the pass/fail verdict, and in the text report the summary lines and the
  final status line. Fail means some finding is critical or high.
 */
module Report {
  import opened Findings

  /** The `summary` object of the JSON report. */
  datatype Summary = Summary(total: nat, critical: nat, high: nat, medium: nat, low: nat)

  /** The JSON report: its summary, its `passed` flag and the findings it lists. */
  datatype JsonReport = JsonReport(summary: Summary, passed: bool, findings: seq<Finding>)

  /** `all(f.severity not in ('critical', 'high') for f in findings)`. */
  predicate Passed(fs: seq<Finding>)
  {
    forall i :: 0 <= i < |fs| ==> fs[i].severity != "critical" && fs[i].severity != "high"
  }

  /**
    `format_json_report`, without the JSON text: `total` is the number of
    findings, and `passed` holds exactly when no critical or high finding was
    counted.
   */
  function FormatJsonReport(fs: seq<Finding>): (r: JsonReport)
    ensures r.findings == fs && r.summary.total == |fs|
    ensures r.summary.critical == CountSeverity(fs, "critical") && r.summary.high == CountSeverity(fs, "high")
      && r.summary.medium == CountSeverity(fs, "medium") && r.summary.low == CountSeverity(fs, "low")
    ensures r.passed <==> r.summary.critical == 0 && r.summary.high == 0
  {
    JsonReport(
      Summary(|fs|, CountSeverity(fs, "critical"), CountSeverity(fs, "high"),
        CountSeverity(fs, "medium"), CountSeverity(fs, "low")),
      Passed(fs),
      fs)
  }

  /** When every severity is a severity name, the four counts add up to `total`. */
  lemma {:induction false} SummaryAddsUp(fs: seq<Finding>)
    requires AllSeverities(fs)
    ensures var s := FormatJsonReport(fs).summary;
      s.critical + s.high + s.medium + s.low == s.total
  {
    if fs != [] {
      var init := fs[..|fs| - 1];
      assert AllSeverities(init);
      SummaryAddsUp(init);
      assert IsSeverity(fs[|fs| - 1].severity);
    }
  }

  /** `sum(1 for f in findings if f.severity in ('critical', 'high'))`. */
  function CriticalHigh(fs: seq<Finding>): (n: nat)
    ensures n == CountSeverity(fs, "critical") + CountSeverity(fs, "high")
  {
    if fs == [] then 0
    else
      CriticalHigh(fs[..|fs| - 1])
      + (if fs[|fs| - 1].severity in ["critical", "high"] then 1 else 0)
  }

  /** The exit status of `main`: 1 when a critical or high finding remains, else 0. */
  function ExitCode(fs: seq<Finding>): (code: int)
    ensures code == 0 || code == 1
    ensures code == 0 <==> Passed(fs)
    ensures code == 0 <==> FormatJsonReport(fs).passed
  {
    if CriticalHigh(fs) > 0 then 1 else 0
  }

  /** A summary line of the text report: `  <SEVERITY>: <count>`. */
  datatype SummaryLine = SummaryLine(severity: string, count: nat)

  /**
    The text report, without its banner, icons and per-file blocks: either
    the no-issues message, or the summary lines and whether the final status
    line is the failure line.
   */
  datatype TextReport = NoIssues | Issues(summary: seq<SummaryLine>, failed: bool)

  /** The summary lines for the severities of `order` that occur in `fs`, in that order. */
  function SummaryLines(fs: seq<Finding>, order: seq<string>): seq<SummaryLine>
  {
    if order == [] then []
    else
      var severity := order[|order| - 1];
      var n := CountSeverity(fs, severity);
      SummaryLines(fs, order[..|order| - 1]) + (if n > 0 then [SummaryLine(severity, n)] else [])
  }

  /** `counts.get(s, 0)`. */
  function Get(counts: map<string, nat>, s: string): nat
  {
    if s in counts then counts[s] else 0
  }

  /** The `by_severity` loop of `format_text_report`: each severity's count, finding by finding. */
  method CountBySeverity(fs: seq<Finding>) returns (bySeverity: map<string, nat>)
    ensures forall s :: Get(bySeverity, s) == CountSeverity(fs, s)
  {
    bySeverity := map[];
    var i := 0;
    while i < |fs|
      invariant 0 <= i <= |fs|
      invariant forall s :: Get(bySeverity, s) == CountSeverity(fs[..i], s)
    {
      var f := fs[i];
      assert fs[..i + 1] == fs[..i] + [f];
      forall s
        ensures CountSeverity(fs[..i + 1], s) == CountSeverity(fs[..i], s) + (if f.severity == s then 1 else 0)
      {
        CountSeveritySnoc(fs[..i], f, s);
      }
      bySeverity := bySeverity[f.severity := Get(bySeverity, f.severity) + 1];
      i := i + 1;
    }
    assert fs[..i] == fs;
  }

  /**
    `format_text_report`: nothing to report gives the no-issues message;
    otherwise a summary line is written for each severity in order whose
    count is positive, and the report fails when the critical or the high
    count is positive.
   */
  method FormatTextReport(fs: seq<Finding>) returns (r: TextReport)
    ensures r == NoIssues <==> fs == []
    ensures r.Issues? ==> r.summary == SummaryLines(fs, SeverityOrder)
    ensures r.Issues? ==> (r.failed <==> !Passed(fs))
  {
    if fs == [] {
      return NoIssues;
    }
    var bySeverity := CountBySeverity(fs);
    var summary: seq<SummaryLine> := [];
    var k := 0;
    while k < |SeverityOrder|
      invariant 0 <= k <= |SeverityOrder|
      invariant summary == SummaryLines(fs, SeverityOrder[..k])
    {
      var severity := SeverityOrder[k];
      var count := Get(bySeverity, severity);
      assert SeverityOrder[..k + 1][..k] == SeverityOrder[..k];
      if count > 0 {
        summary := summary + [SummaryLine(severity, count)];
      }
      k := k + 1;
    }
    assert SeverityOrder[..k] == SeverityOrder;
    var criticalCount := Get(bySeverity, "critical");
    var highCount := Get(bySeverity, "high");
    r := Issues(summary, criticalCount > 0 || highCount > 0);
  }

  /** The summary lines name each severity that occurs, with its count, and no other. */
  lemma {:induction false} SummaryLinesExactly(fs: seq<Finding>, order: seq<string>)
    ensures forall line :: line in SummaryLines(fs, order) <==>
      line.severity in order && line.count == CountSeverity(fs, line.severity) && line.count > 0
  {
    if order != [] {
      var init := order[..|order| - 1];
      SummaryLinesExactly(fs, init);
      assert order == init + [order[|order| - 1]];
    }
  }

  /** The sum of the counts on a list of summary lines. */
  function LinesTotal(lines: seq<SummaryLine>): nat
  {
    if lines == [] then 0 else LinesTotal(lines[..|lines| - 1]) + lines[|lines| - 1].count
  }

  /** The number of findings of `fs` with a severity of `order`, severity by severity. */
  function CountsOf(fs: seq<Finding>, order: seq<string>): nat
  {
    if order == [] then 0 else CountsOf(fs, order[..|order| - 1]) + CountSeverity(fs, order[|order| - 1])
  }

  /** Leaving out the severities that do not occur does not change the total. */
  lemma {:induction false} LinesTotalCounts(fs: seq<Finding>, order: seq<string>)
    ensures LinesTotal(SummaryLines(fs, order)) == CountsOf(fs, order)
  {
    if order != [] {
      var init := order[..|order| - 1];
      LinesTotalCounts(fs, init);
      var u := SummaryLines(fs, init);
      var n := CountSeverity(fs, order[|order| - 1]);
      if n > 0 {
        var l := SummaryLine(order[|order| - 1], n);
        assert SummaryLines(fs, order) == u + [l];
        assert (u + [l])[..|u|] == u;
      } else {
        assert SummaryLines(fs, order) == u;
      }
    }
  }

  /** Counting one more severity of the order. */
  lemma CountsOfPrefix(fs: seq<Finding>, order: seq<string>, k: nat)
    requires k < |order|
    ensures CountsOf(fs, order[..k + 1]) == CountsOf(fs, order[..k]) + CountSeverity(fs, order[k])
  {
    assert order[..k + 1][..k] == order[..k];
  }

  /** Over the severity list, the per-order sum is the four counts of the summary. */
  lemma CountsOfSeverityOrder(fs: seq<Finding>)
    ensures CountsOf(fs, SeverityOrder) == CountSeverity(fs, "critical") + CountSeverity(fs, "high")
      + CountSeverity(fs, "medium") + CountSeverity(fs, "low")
  {
    CountsOfPrefix(fs, SeverityOrder, 0);
    CountsOfPrefix(fs, SeverityOrder, 1);
    CountsOfPrefix(fs, SeverityOrder, 2);
    CountsOfPrefix(fs, SeverityOrder, 3);
    assert SeverityOrder[..0] == [];
    assert SeverityOrder[..4] == SeverityOrder;
  }

  /**
    When every severity is a severity name, the counts on the summary lines
    add up to the number of findings.
   */
  lemma SummaryLinesAddUp(fs: seq<Finding>)
    requires AllSeverities(fs)
    ensures LinesTotal(SummaryLines(fs, SeverityOrder)) == |fs|
  {
    SummaryAddsUp(fs);
    LinesTotalCounts(fs, SeverityOrder);
    CountsOfSeverityOrder(fs);
  }
}
