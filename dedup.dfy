/**
  `deduplicate_findings`: findings that share a (file, line, category) key
  are reduced to the first of them, the rest keeping their order.
 */
module Dedup {
  import opened Sequences
  import opened Findings

  /** The keys of `fs`. */
  function Keys(fs: seq<Finding>): set<Key>
  {
    set i | 0 <= i < |fs| :: KeyOf(fs[i])
  }

  /** Appending a finding adds its key. */
  lemma KeysSnoc(fs: seq<Finding>, f: Finding)
    ensures Keys(fs + [f]) == Keys(fs) + {KeyOf(f)}
  {
    var s := fs + [f];
    forall k | k in Keys(s)
      ensures k in Keys(fs) + {KeyOf(f)}
    {
      var i :| 0 <= i < |s| && KeyOf(s[i]) == k;
      if i < |fs| {
        assert s[i] == fs[i];
      }
    }
    forall k | k in Keys(fs)
      ensures k in Keys(s)
    {
      var i :| 0 <= i < |fs| && KeyOf(fs[i]) == k;
      assert s[i] == fs[i];
    }
    assert s[|fs|] == f;
  }

  /** No two findings of `fs` share a key. */
  predicate KeysUnique(fs: seq<Finding>)
  {
    forall i, j :: 0 <= i < j < |fs| ==> KeyOf(fs[i]) != KeyOf(fs[j])
  }

  /** `fs[i]` is the first finding of `fs` with its key. */
  predicate FirstWithKey(fs: seq<Finding>, i: int)
    requires 0 <= i < |fs|
  {
    forall j :: 0 <= j < i ==> KeyOf(fs[j]) != KeyOf(fs[i])
  }

  /** The findings of `fs` that are the first with their key, in order. */
  function Deduplicated(fs: seq<Finding>): seq<Finding>
  {
    if fs == [] then []
    else
      var init := fs[..|fs| - 1];
      var last := fs[|fs| - 1];
      Deduplicated(init) + (if KeyOf(last) in Keys(init) then [] else [last])
  }

  /**
    `deduplicate_findings`: `seen` holds the keys met so far and `unique` the
    findings kept; a finding is kept when its key has not been seen.
   */
  method DeduplicateFindings(findings: seq<Finding>) returns (unique: seq<Finding>)
    ensures unique == Deduplicated(findings)
  {
    var seen: set<Key> := {};
    unique := [];
    var i := 0;
    while i < |findings|
      invariant 0 <= i <= |findings|
      invariant seen == Keys(findings[..i])
      invariant unique == Deduplicated(findings[..i])
    {
      var f := findings[i];
      var key := KeyOf(f);
      assert findings[..i + 1] == findings[..i] + [f];
      KeysSnoc(findings[..i], f);
      if key !in seen {
        seen := seen + {key};
        unique := unique + [f];
      }
      i := i + 1;
    }
    assert findings[..i] == findings;
  }

  /** Every key of the input survives, and no other key appears. */
  lemma {:induction false} DeduplicatedKeys(fs: seq<Finding>)
    ensures Keys(Deduplicated(fs)) == Keys(fs)
  {
    if fs != [] {
      var init := fs[..|fs| - 1];
      DeduplicatedKeys(init);
      var last := fs[|fs| - 1];
      assert fs == init + [last];
      KeysSnoc(init, last);
      if KeyOf(last) in Keys(init) {
        assert Deduplicated(fs) == Deduplicated(init);
      } else {
        assert Deduplicated(fs) == Deduplicated(init) + [last];
        KeysSnoc(Deduplicated(init), last);
      }
    }
  }

  /** No two kept findings share a key. */
  lemma {:induction false} DeduplicatedKeysUnique(fs: seq<Finding>)
    ensures KeysUnique(Deduplicated(fs))
  {
    if fs != [] {
      var init := fs[..|fs| - 1];
      var last := fs[|fs| - 1];
      DeduplicatedKeysUnique(init);
      DeduplicatedKeys(init);
      if KeyOf(last) !in Keys(init) {
        var u := Deduplicated(init);
        var r := u + [last];
        forall i, j | 0 <= i < j < |r|
          ensures KeyOf(r[i]) != KeyOf(r[j])
        {
          if j == |u| {
            assert r[i] == u[i];
            assert KeyOf(u[i]) in Keys(u);
          } else {
            assert r[i] == u[i] && r[j] == u[j];
          }
        }
      }
    }
  }

  /** The kept findings are the input with some findings removed, in their original order. */
  lemma {:induction false} DeduplicatedInInputOrder(fs: seq<Finding>)
    ensures Subsequence(Deduplicated(fs), fs)
  {
    if fs != [] {
      var init := fs[..|fs| - 1];
      var last := fs[|fs| - 1];
      DeduplicatedInInputOrder(init);
      assert init + [last] == fs;
      SubsequenceExtend(Deduplicated(init), init, last);
      if KeyOf(last) in Keys(init) {
        assert Deduplicated(fs) == Deduplicated(init);
      } else {
        assert Deduplicated(fs) == Deduplicated(init) + [last];
      }
    }
  }

  /** Within a prefix, being the first with one's key means the same as in the whole sequence. */
  lemma FirstWithKeyInit(fs: seq<Finding>, i: int)
    requires 0 <= i < |fs| - 1
    ensures FirstWithKey(fs[..|fs| - 1], i) <==> FirstWithKey(fs, i)
  {
    var init := fs[..|fs| - 1];
    assert forall j :: 0 <= j <= i ==> init[j] == fs[j];
  }

  /** The last finding is the first with its key exactly when its key is new. */
  lemma FirstWithKeyLast(fs: seq<Finding>)
    requires fs != []
    ensures FirstWithKey(fs, |fs| - 1) <==> KeyOf(fs[|fs| - 1]) !in Keys(fs[..|fs| - 1])
  {
    var init := fs[..|fs| - 1];
    if KeyOf(fs[|fs| - 1]) in Keys(init) {
      var j :| 0 <= j < |init| && KeyOf(init[j]) == KeyOf(fs[|fs| - 1]);
      assert fs[j] == init[j];
    } else {
      forall j | 0 <= j < |fs| - 1
        ensures KeyOf(fs[j]) != KeyOf(fs[|fs| - 1])
      {
        assert fs[j] == init[j];
      }
    }
  }

  /**
    For each key, the finding kept is its first occurrence: every kept finding
    is the first of the input with its key, and every such first occurrence
    is kept.
   */
  lemma {:induction false} DeduplicatedKeepsFirst(fs: seq<Finding>)
    ensures forall f :: f in Deduplicated(fs) <==>
      exists i :: 0 <= i < |fs| && fs[i] == f && FirstWithKey(fs, i)
  {
    if fs != [] {
      var init := fs[..|fs| - 1];
      var n := |fs| - 1;
      var last := fs[n];
      DeduplicatedKeepsFirst(init);
      FirstWithKeyLast(fs);
      var isNew := KeyOf(last) !in Keys(init);
      assert Deduplicated(fs) == Deduplicated(init) + (if isNew then [last] else []);
      forall f | f in Deduplicated(fs)
        ensures exists i :: 0 <= i < |fs| && fs[i] == f && FirstWithKey(fs, i)
      {
        if f in Deduplicated(init) {
          var i :| 0 <= i < n && init[i] == f && FirstWithKey(init, i);
          FirstWithKeyInit(fs, i);
          assert fs[i] == f;
        } else {
          assert f == last && FirstWithKey(fs, n);
        }
      }
      forall f | exists i :: 0 <= i < |fs| && fs[i] == f && FirstWithKey(fs, i)
        ensures f in Deduplicated(fs)
      {
        var i :| 0 <= i < |fs| && fs[i] == f && FirstWithKey(fs, i);
        if i < n {
          FirstWithKeyInit(fs, i);
          assert init[i] == f;
          assert f in Deduplicated(init);
        }
      }
    }
  }

  /** A sequence whose keys are already unique is left as it is. */
  lemma {:induction false} DeduplicatedUnique(fs: seq<Finding>)
    requires KeysUnique(fs)
    ensures Deduplicated(fs) == fs
  {
    if fs != [] {
      var init := fs[..|fs| - 1];
      var last := fs[|fs| - 1];
      assert KeysUnique(init);
      DeduplicatedUnique(init);
      assert KeyOf(last) !in Keys(init);
      assert init + [last] == fs;
    }
  }

  /** Deduplicating twice is the same as deduplicating once. */
  lemma DeduplicatedIdempotent(fs: seq<Finding>)
    ensures Deduplicated(Deduplicated(fs)) == Deduplicated(fs)
  {
    DeduplicatedKeysUnique(fs);
    DeduplicatedUnique(Deduplicated(fs));
  }
}
