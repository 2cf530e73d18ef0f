/**
  `filter_by_severity`: keep the findings at least as severe as a minimum.
  Ranks come from `list.index` on the severity list, which raises
  `ValueError` for a name that is not in it; that failure is the `Err` case,
  carrying the name that was looked up.
 */
module SeverityFilter {
  import opened Wrappers
  import opened Strings
  import opened Sequences
  import opened Findings

  /** `ValueError: '<value>' is not in list`, raised by `list.index`. */
  datatype Error = NotInList(value: string)

  /** The first finding of `fs` whose severity has no rank sits at index `i`. */
  predicate FirstUnranked(fs: seq<Finding>, i: int)
  {
    0 <= i < |fs| && !IsSeverity(fs[i].severity)
    && forall j :: 0 <= j < i ==> IsSeverity(fs[j].severity)
  }

  /**
    The comprehension `[f for f in fs if index(f.severity) <= limit]`: it fails
    at the first finding whose severity is not a severity name; otherwise it
    keeps exactly the findings whose rank is at most `limit`.
   */
  function Retain(fs: seq<Finding>, limit: nat): (r: Result<seq<Finding>, Error>)
    ensures r.Ok? <==> AllSeverities(fs)
    ensures r.Err? ==> exists i :: FirstUnranked(fs, i) && r.error == NotInList(fs[i].severity)
  {
    if fs == [] then Ok([])
    else
      var init := fs[..|fs| - 1];
      var last := fs[|fs| - 1];
      assert forall j :: 0 <= j < |init| ==> init[j] == fs[j];
      assert fs == init + [last];
      match Retain(init, limit)
      case Err(e) =>
        assert exists i :: FirstUnranked(fs, i) && e == NotInList(fs[i].severity);
        Err(e)
      case Ok(kept) =>
        if !IsSeverity(last.severity) then
          assert FirstUnranked(fs, |fs| - 1);
          Err(NotInList(last.severity))
        else
          Ok(kept + (if Rank(last.severity) <= limit then [last] else []))
  }

  /**
    `filter_by_severity`: the lower-cased minimum is looked up first, so an
    unknown minimum fails before any finding is looked at.
   */
  function FilterBySeverity(fs: seq<Finding>, minSeverity: string): (r: Result<seq<Finding>, Error>)
    ensures r.Ok? <==> IsSeverity(Lower(minSeverity)) && AllSeverities(fs)
    ensures !IsSeverity(Lower(minSeverity)) ==> r == Err(NotInList(Lower(minSeverity)))
    ensures IsSeverity(Lower(minSeverity)) && r.Err? ==>
      exists i :: FirstUnranked(fs, i) && r.error == NotInList(fs[i].severity)
    ensures r.Ok? ==> forall f :: f in r.value <==>
      f in fs && IsSeverity(f.severity) && Rank(f.severity) <= Rank(Lower(minSeverity))
  {
    var m := Lower(minSeverity);
    if !IsSeverity(m) then Err(NotInList(m))
    else
      var r := Retain(fs, Rank(m));
      if r.Ok? then RetainMembers(fs, Rank(m)); r else r
  }

  /** A severity name is already lower case: the filter looks it up as given. */
  lemma LowerSeverityName(s: string)
    requires IsSeverity(s)
    ensures Lower(s) == s
  {
    LowerUnchanged(s);
  }

  /** The comprehension keeps exactly the findings whose rank is at most `limit`. */
  lemma {:induction false} RetainMembers(fs: seq<Finding>, limit: nat)
    requires Retain(fs, limit).Ok?
    ensures forall f :: f in Retain(fs, limit).value <==> f in fs && IsSeverity(f.severity) && Rank(f.severity) <= limit
  {
    if fs != [] {
      var init := fs[..|fs| - 1];
      var last := fs[|fs| - 1];
      RetainSnoc(fs, limit);
      RetainMembers(init, limit);
      var kept := Retain(init, limit).value;
      var tail := if Rank(last.severity) <= limit then [last] else [];
      assert fs == init + [last];
      forall f
        ensures f in kept + tail <==> f in fs && IsSeverity(f.severity) && Rank(f.severity) <= limit
      {
        assert f in fs <==> f in init || f == last;
      }
    }
  }

  /** One more finding: the comprehension extends what it kept on the rest. */
  lemma RetainSnoc(fs: seq<Finding>, limit: nat)
    requires fs != [] && Retain(fs, limit).Ok?
    ensures var init, last := fs[..|fs| - 1], fs[|fs| - 1];
      Retain(init, limit).Ok? && IsSeverity(last.severity)
      && Retain(fs, limit).value == Retain(init, limit).value + (if Rank(last.severity) <= limit then [last] else [])
  {
  }

  /** What is kept keeps its relative order. */
  lemma {:induction false} RetainInOrder(fs: seq<Finding>, limit: nat)
    requires Retain(fs, limit).Ok?
    ensures Subsequence(Retain(fs, limit).value, fs)
  {
    if fs != [] {
      var init := fs[..|fs| - 1];
      var last := fs[|fs| - 1];
      RetainSnoc(fs, limit);
      RetainInOrder(init, limit);
      var kept := Retain(init, limit).value;
      assert fs == init + [last];
      SubsequenceExtend(kept, init, last);
      if Rank(last.severity) <= limit {
        assert Retain(fs, limit).value == kept + [last];
      } else {
        assert Retain(fs, limit).value == kept;
      }
    }
  }

  /**
    Per severity, the filter keeps every finding of a rank within the limit
    and none of the others.
   */
  lemma {:induction false} RetainCounts(fs: seq<Finding>, limit: nat, severity: string)
    requires Retain(fs, limit).Ok? && IsSeverity(severity)
    ensures CountSeverity(Retain(fs, limit).value, severity)
      == if Rank(severity) <= limit then CountSeverity(fs, severity) else 0
  {
    if fs != [] {
      var init := fs[..|fs| - 1];
      var last := fs[|fs| - 1];
      RetainSnoc(fs, limit);
      RetainCounts(init, limit, severity);
      var kept := Retain(init, limit).value;
      assert fs == init + [last];
      CountSeveritySnoc(init, last, severity);
      if Rank(last.severity) <= limit {
        assert Retain(fs, limit).value == kept + [last];
        CountSeveritySnoc(kept, last, severity);
      } else {
        assert Retain(fs, limit).value == kept;
      }
    }
  }

  /** The filter keeps the order, the severity names and the per-severity counts within the limit. */
  lemma FilterBySeverityKeeps(fs: seq<Finding>, minSeverity: string)
    requires FilterBySeverity(fs, minSeverity).Ok?
    ensures var kept := FilterBySeverity(fs, minSeverity).value;
      Subsequence(kept, fs) && AllSeverities(kept)
      && forall s :: IsSeverity(s) ==>
        CountSeverity(kept, s) == if Rank(s) <= Rank(Lower(minSeverity)) then CountSeverity(fs, s) else 0
  {
    var m := Lower(minSeverity);
    var kept := FilterBySeverity(fs, minSeverity).value;
    RetainInOrder(fs, Rank(m));
    forall s | IsSeverity(s)
      ensures CountSeverity(kept, s) == if Rank(s) <= Rank(m) then CountSeverity(fs, s) else 0
    {
      RetainCounts(fs, Rank(m), s);
    }
    forall i | 0 <= i < |kept|
      ensures IsSeverity(kept[i].severity)
    {
      assert kept[i] in kept;
    }
  }

  /** With the last rank, 3, as its limit the comprehension drops nothing. */
  lemma {:induction false} RetainAll(fs: seq<Finding>)
    requires AllSeverities(fs)
    ensures Retain(fs, 3) == Ok(fs)
  {
    if fs != [] {
      var init := fs[..|fs| - 1];
      assert AllSeverities(init);
      RetainAll(init);
      assert fs == init + [fs[|fs| - 1]];
    }
  }

  /** `filter_by_severity(fs, "low")` (in any letter case) returns `fs` unchanged. */
  lemma FilterLowKeepsAll(fs: seq<Finding>, minSeverity: string)
    requires AllSeverities(fs) && Lower(minSeverity) == "low"
    ensures FilterBySeverity(fs, minSeverity) == Ok(fs)
  {
    RetainAll(fs);
  }
}
