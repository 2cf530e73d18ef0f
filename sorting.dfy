/**
  The sort in `main`: `findings.sort(key=lambda f: (index(f.severity), f.file, f.line))`.
  Python compares the key tuples element by element, strings by code point,
  and `list.sort` is stable. The sort runs after the severity filter, so
  every finding it sees has a severity name.
 */
module Sorting {
  import opened Findings

  /** The sort key: severity rank, then file, then line. */
  datatype SortKey = SortKey(rank: nat, file: string, line: int)

  function SortKeyOf(f: Finding): SortKey
    requires IsSeverity(f.severity)
  {
    SortKey(Rank(f.severity), f.file, f.line)
  }

  /** Python's `a <= b` on strings: lexicographic by code point, a prefix first. */
  predicate StrLe(a: string, b: string)
    decreases |a|
  {
    a == [] || (b != [] && (a[0] < b[0] || (a[0] == b[0] && StrLe(a[1..], b[1..]))))
  }

  lemma {:induction false} StrLeTotal(a: string, b: string)
    ensures StrLe(a, b) || StrLe(b, a)
    decreases |a|
  {
    if a != [] && b != [] && a[0] == b[0] {
      StrLeTotal(a[1..], b[1..]);
    }
  }

  lemma {:induction false} StrLeAntisymmetric(a: string, b: string)
    requires StrLe(a, b) && StrLe(b, a)
    ensures a == b
    decreases |a|
  {
    if a != [] {
      StrLeAntisymmetric(a[1..], b[1..]);
      assert a == [a[0]] + a[1..] && b == [b[0]] + b[1..];
    }
  }

  lemma {:induction false} StrLeTransitive(a: string, b: string, c: string)
    requires StrLe(a, b) && StrLe(b, c)
    ensures StrLe(a, c)
    decreases |a|
  {
    if a != [] && b != [] && c != [] && a[0] == b[0] && b[0] == c[0] {
      StrLeTransitive(a[1..], b[1..], c[1..]);
    }
  }

  /** Python's `<=` on the key tuples. */
  predicate KeyLe(k1: SortKey, k2: SortKey)
  {
    k1.rank < k2.rank
    || (k1.rank == k2.rank
        && ((k1.file != k2.file && StrLe(k1.file, k2.file))
            || (k1.file == k2.file && k1.line <= k2.line)))
  }

  /** Any two keys are comparable. */
  lemma KeyLeTotal(k1: SortKey, k2: SortKey)
    ensures KeyLe(k1, k2) || KeyLe(k2, k1)
  {
    StrLeTotal(k1.file, k2.file);
  }

  /** Keys that are each at most the other are equal. */
  lemma KeyLeAntisymmetric(k1: SortKey, k2: SortKey)
    requires KeyLe(k1, k2) && KeyLe(k2, k1)
    ensures k1 == k2
  {
    if k1.file != k2.file {
      StrLeAntisymmetric(k1.file, k2.file);
    }
  }

  lemma KeyLeTransitive(k1: SortKey, k2: SortKey, k3: SortKey)
    requires KeyLe(k1, k2) && KeyLe(k2, k3)
    ensures KeyLe(k1, k3)
  {
    if k1.rank == k2.rank == k3.rank && k1.file != k2.file && k2.file != k3.file {
      StrLeTransitive(k1.file, k2.file, k3.file);
      if k1.file == k3.file {
        StrLeAntisymmetric(k1.file, k2.file);
      }
    }
  }

  /** `f` sorts no later than `g`. */
  predicate FLe(f: Finding, g: Finding)
    requires IsSeverity(f.severity) && IsSeverity(g.severity)
  {
    KeyLe(SortKeyOf(f), SortKeyOf(g))
  }

  /** Ordered by (rank, file, line). */
  predicate Sorted(s: seq<Finding>)
    requires AllSeverities(s)
  {
    forall i, j :: 0 <= i < j < |s| ==> FLe(s[i], s[j])
  }

  /**
    `x` placed after the longest suffix of `t` whose findings sort strictly
    after it: the step of a stable insertion sort.
   */
  function Insert(t: seq<Finding>, x: Finding): (r: seq<Finding>)
    requires AllSeverities(t) && IsSeverity(x.severity)
    ensures |r| == |t| + 1 && AllSeverities(r)
  {
    if t == [] then [x]
    else
      var init := t[..|t| - 1];
      var last := t[|t| - 1];
      if FLe(last, x) then t + [x] else Insert(init, x) + [last]
  }

  /** The stable sort of `s` by (rank, file, line). */
  function Sort(s: seq<Finding>): (r: seq<Finding>)
    requires AllSeverities(s)
    ensures |r| == |s| && AllSeverities(r)
  {
    if s == [] then [] else Insert(Sort(s[..|s| - 1]), s[|s| - 1])
  }

  /** Insertion adds `x` and loses nothing. */
  lemma {:induction false} InsertPermutes(t: seq<Finding>, x: Finding)
    requires AllSeverities(t) && IsSeverity(x.severity)
    ensures multiset(Insert(t, x)) == multiset(t) + multiset{x}
  {
    if t != [] {
      var init := t[..|t| - 1];
      var last := t[|t| - 1];
      assert t == init + [last];
      if !FLe(last, x) {
        InsertPermutes(init, x);
      }
    }
  }

  /** The sorted sequence is a permutation of the input. */
  lemma {:induction false} SortPermutes(s: seq<Finding>)
    requires AllSeverities(s)
    ensures multiset(Sort(s)) == multiset(s)
  {
    if s != [] {
      var init := s[..|s| - 1];
      SortPermutes(init);
      InsertPermutes(Sort(init), s[|s| - 1]);
      assert s == init + [s[|s| - 1]];
    }
  }

  /** Inserting into a sorted sequence keeps it sorted. */
  lemma {:induction false} InsertSorted(t: seq<Finding>, x: Finding)
    requires AllSeverities(t) && IsSeverity(x.severity) && Sorted(t)
    ensures Sorted(Insert(t, x))
  {
    if t != [] {
      var init := t[..|t| - 1];
      var last := t[|t| - 1];
      var r := Insert(t, x);
      if FLe(last, x) {
        forall i, j | 0 <= i < j < |r|
          ensures FLe(r[i], r[j])
        {
          if j == |t| {
            if i < |t| - 1 {
              KeyLeTransitive(SortKeyOf(t[i]), SortKeyOf(last), SortKeyOf(x));
            }
          }
        }
      } else {
        assert Sorted(init);
        InsertSorted(init, x);
        InsertBelow(init, x, last);
        assert r == Insert(init, x) + [last];
      }
    }
  }

  /**
    When `last` sorts no earlier than every finding of `init` and strictly
    after `x`, it sorts no earlier than anything of `Insert(init, x)`.
   */
  lemma InsertBelow(init: seq<Finding>, x: Finding, last: Finding)
    requires AllSeverities(init) && IsSeverity(x.severity) && IsSeverity(last.severity)
    requires forall i :: 0 <= i < |init| ==> FLe(init[i], last)
    requires !FLe(last, x)
    ensures forall i :: 0 <= i < |Insert(init, x)| ==> FLe(Insert(init, x)[i], last)
  {
    InsertPermutes(init, x);
    var u := Insert(init, x);
    KeyLeTotal(SortKeyOf(last), SortKeyOf(x));
    forall i | 0 <= i < |u|
      ensures FLe(u[i], last)
    {
      assert u[i] in multiset(u);
      if u[i] != x {
        assert u[i] in multiset(init);
        var k :| 0 <= k < |init| && init[k] == u[i];
      }
    }
  }

  /** The sorted sequence is ordered by (rank, file, line). */
  lemma {:induction false} SortSorted(s: seq<Finding>)
    requires AllSeverities(s)
    ensures Sorted(Sort(s))
  {
    if s != [] {
      var init := s[..|s| - 1];
      SortSorted(init);
      InsertSorted(Sort(init), s[|s| - 1]);
    }
  }

  /** The findings of `s` with sort key `k`, in order. */
  function WithKey(s: seq<Finding>, k: SortKey): seq<Finding>
    requires AllSeverities(s)
  {
    if s == [] then []
    else
      var last := s[|s| - 1];
      WithKey(s[..|s| - 1], k) + (if SortKeyOf(last) == k then [last] else [])
  }

  lemma WithKeySnoc(s: seq<Finding>, x: Finding, k: SortKey)
    requires AllSeverities(s) && IsSeverity(x.severity)
    ensures AllSeverities(s + [x])
    ensures WithKey(s + [x], k) == WithKey(s, k) + (if SortKeyOf(x) == k then [x] else [])
  {
    assert (s + [x])[..|s|] == s;
  }

  /** Insertion puts `x` after every finding of `t` with the same key. */
  lemma {:induction false} InsertStable(t: seq<Finding>, x: Finding, k: SortKey)
    requires AllSeverities(t) && IsSeverity(x.severity)
    ensures WithKey(Insert(t, x), k) == WithKey(t, k) + (if SortKeyOf(x) == k then [x] else [])
  {
    if t != [] {
      var init := t[..|t| - 1];
      var last := t[|t| - 1];
      assert t == init + [last];
      if FLe(last, x) {
        WithKeySnoc(t, x, k);
      } else {
        InsertStable(init, x, k);
        WithKeySnoc(Insert(init, x), last, k);
        WithKeySnoc(init, last, k);
        assert SortKeyOf(last) != SortKeyOf(x);
      }
    }
  }

  /** Stability: findings with equal keys keep their relative order. */
  lemma {:induction false} SortStable(s: seq<Finding>, k: SortKey)
    requires AllSeverities(s)
    ensures WithKey(Sort(s), k) == WithKey(s, k)
  {
    if s != [] {
      var init := s[..|s| - 1];
      var last := s[|s| - 1];
      SortStable(init, k);
      InsertStable(Sort(init), last, k);
      WithKeySnoc(init, last, k);
      assert s == init + [last];
    }
  }

  /**
    Where insertion puts `x`: right after the last finding that sorts no later
    than it, all findings after that position sorting strictly after `x`.
   */
  lemma {:induction false} InsertAt(t: seq<Finding>, x: Finding, j: int)
    requires AllSeverities(t) && IsSeverity(x.severity) && 0 <= j <= |t|
    requires j == 0 || FLe(t[j - 1], x)
    requires forall k :: j <= k < |t| ==> !FLe(t[k], x)
    ensures Insert(t, x) == t[..j] + [x] + t[j..]
  {
    if t != [] {
      var init := t[..|t| - 1];
      var last := t[|t| - 1];
      assert t == init + [last];
      if j == |t| {
        assert FLe(last, x);
        assert t[..j] == t && t[j..] == [];
      } else {
        assert !FLe(last, x);
        assert Insert(t, x) == Insert(init, x) + [last];
        assert AllSeverities(init);
        assert forall k :: j <= k < |init| ==> init[k] == t[k];
        assert j > 0 ==> init[j - 1] == t[j - 1];
        InsertAt(init, x, j);
        assert init[..j] == t[..j];
        assert t[j..] == init[j..] + [last];
      }
    }
  }

  /** Sorting one more element inserts it into the sorted prefix. */
  lemma SortSnoc(s: seq<Finding>, i: int)
    requires AllSeverities(s) && 0 <= i < |s|
    ensures AllSeverities(s[..i]) && AllSeverities(s[..i + 1])
    ensures Sort(s[..i + 1]) == Insert(Sort(s[..i]), s[i])
  {
    assert s[..i + 1][..i] == s[..i];
  }

  /**
    One step of the in-place insertion sort: `a[..i]` holds a sorted prefix
    and `a[i]` is moved left past the findings that sort strictly after it.
   */
  method InsertLast(a: array<Finding>, i: int, ghost t: seq<Finding>)
    requires 0 <= i < a.Length && t == a[..i]
    requires AllSeverities(t) && IsSeverity(a[i].severity)
    modifies a
    ensures a[..i + 1] == Insert(t, old(a[i]))
    ensures a[i + 1..] == old(a[i + 1..])
  {
    var x := a[i];
    var j := i;
    while j > 0 && !FLe(a[j - 1], x)
      invariant 0 <= j <= i
      invariant a[..j] == t[..j]
      invariant a[j + 1..i + 1] == t[j..i]
      invariant a[i + 1..] == old(a[i + 1..])
      invariant forall k :: j <= k < i ==> !FLe(t[k], x)
    {
      a[j] := a[j - 1];
      j := j - 1;
    }
    a[j] := x;
    ShiftedIsInsert(t, x, j, a[..i + 1]);
  }

  /**
    The array after the shift: `t`'s findings before position `j`, then `x`,
    then the rest of `t` one place further on. That is `Insert(t, x)`.
   */
  lemma ShiftedIsInsert(t: seq<Finding>, x: Finding, j: int, b: seq<Finding>)
    requires AllSeverities(t) && IsSeverity(x.severity) && 0 <= j <= |t| && |b| == |t| + 1
    requires j == 0 || FLe(t[j - 1], x)
    requires forall k :: j <= k < |t| ==> !FLe(t[k], x)
    requires b[..j] == t[..j] && b[j] == x && b[j + 1..] == t[j..]
    ensures b == Insert(t, x)
  {
    assert b == b[..j] + [b[j]] + b[j + 1..];
    InsertAt(t, x, j);
  }

  /** The sort in `main`, in place and stable: `a` ends up holding `Sort` of what it held. */
  method SortFindings(a: array<Finding>)
    requires AllSeverities(a[..])
    modifies a
    ensures a[..] == Sort(old(a[..]))
  {
    ghost var s := a[..];
    var i := 0;
    assert s[..0] == [];
    while i < a.Length
      invariant 0 <= i <= a.Length
      invariant AllSeverities(s[..i])
      invariant a[..i] == Sort(s[..i])
      invariant a[i..] == s[i..]
    {
      SortSnoc(s, i);
      assert a[i] == s[i];
      InsertLast(a, i, a[..i]);
      assert a[i + 1..] == s[i + 1..];
      i := i + 1;
    }
    assert s[..i] == s;
  }
}
