/**
  The scanner's records: the `Severity` enumeration, the `Finding` record and
  the severity list `['critical', 'high', 'medium', 'low']` that ranks them.
  A finding's severity is a plain string, as in the Python record; only the
  four names of the list have a rank.
 */
module Findings {

  /** The four severity levels and the strings they stand for. */
  datatype Severity = Critical | High | Medium | Low
  {
    function Value(): (s: string)
      ensures IsSeverity(s)
    {
      match this
      case Critical => "critical"
      case High => "high"
      case Medium => "medium"
      case Low => "low"
    }
  }

  /** One reported issue at one line of one file. */
  datatype Finding = Finding(
    file: string,
    line: int,
    severity: string,
    category: string,
    description: string,
    codeSnippet: string,
    recommendation: string)

  /** The triple that identifies duplicate findings. */
  datatype Key = Key(file: string, line: int, category: string)

  function KeyOf(f: Finding): Key
  {
    Key(f.file, f.line, f.category)
  }

  /** Most severe first: the list whose `.index` gives a severity's rank. */
  const SeverityOrder: seq<string> := ["critical", "high", "medium", "low"]

  /** `s` is one of the names in `SeverityOrder`. */
  predicate IsSeverity(s: string)
  {
    s == "critical" || s == "high" || s == "medium" || s == "low"
  }

  /** `SeverityOrder.index(s)`: the position of `s` in the list. */
  function Rank(s: string): (r: nat)
    requires IsSeverity(s)
    ensures r < |SeverityOrder| && SeverityOrder[r] == s
  {
    if s == "critical" then 0
    else if s == "high" then 1
    else if s == "medium" then 2
    else 3
  }

  /** The names of the list are exactly the severity names. */
  lemma SeverityOrderNames(s: string)
    ensures s in SeverityOrder <==> IsSeverity(s)
  {
  }

  /** Every finding carries one of the four severity names. */
  predicate AllSeverities(fs: seq<Finding>)
  {
    forall i :: 0 <= i < |fs| ==> IsSeverity(fs[i].severity)
  }

  /** `sum(1 for f in fs if f.severity == severity)`. */
  function CountSeverity(fs: seq<Finding>, severity: string): (n: nat)
    ensures n <= |fs|
    ensures n > 0 <==> exists i :: 0 <= i < |fs| && fs[i].severity == severity
  {
    if fs == [] then 0
    else
      var init := fs[..|fs| - 1];
      assert forall i :: 0 <= i < |init| ==> init[i] == fs[i];
      CountSeverity(init, severity) + (if fs[|fs| - 1].severity == severity then 1 else 0)
  }

  /** Counting one more finding. */
  lemma CountSeveritySnoc(fs: seq<Finding>, f: Finding, severity: string)
    ensures CountSeverity(fs + [f], severity) == CountSeverity(fs, severity) + (if f.severity == severity then 1 else 0)
  {
    assert (fs + [f])[..|fs|] == fs;
  }
}
