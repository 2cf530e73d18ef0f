/**
  The few Python `str` operations the scanner relies on, over `seq<char>`:
  `strip()`, `startswith`, `lower()`, slicing to a maximum length and
  `split(sep)` with a one-character separator.
 */
module Strings {

  /** Python's `str.isspace` for one character: the characters `strip()` removes. */
  predicate IsSpace(c: char)
  {
    ('\U{9}' <= c <= '\U{D}') || ('\U{1C}' <= c <= '\U{20}')
    || c == '\U{85}' || c == '\U{A0}' || c == '\U{1680}'
    || ('\U{2000}' <= c <= '\U{200A}')
    || c == '\U{2028}' || c == '\U{2029}' || c == '\U{202F}' || c == '\U{205F}' || c == '\U{3000}'
  }

  /** `s.lstrip()`: `s` without its leading whitespace. */
  function StripLeft(s: string): string
    decreases |s|
  {
    if s != [] && IsSpace(s[0]) then StripLeft(s[1..]) else s
  }

  /** `s.rstrip()`: `s` without its trailing whitespace. */
  function StripRight(s: string): string
    decreases |s|
  {
    if s != [] && IsSpace(s[|s| - 1]) then StripRight(s[..|s| - 1]) else s
  }

  /** `s.strip()`: the text between the leading and the trailing whitespace. */
  function Strip(s: string): string
  {
    StripRight(StripLeft(s))
  }

  /** `lstrip` removes a prefix made only of whitespace, and what is left does not start with whitespace. */
  lemma {:induction false} StripLeftSpec(s: string)
    ensures var r := StripLeft(s);
      |r| <= |s| && r == s[|s| - |r|..]
      && (forall i :: 0 <= i < |s| - |r| ==> IsSpace(s[i]))
      && (r != [] ==> !IsSpace(r[0]))
    decreases |s|
  {
    if s != [] && IsSpace(s[0]) {
      StripLeftSpec(s[1..]);
    }
  }

  /** `rstrip` removes a suffix made only of whitespace, and what is left does not end with whitespace. */
  lemma {:induction false} StripRightSpec(s: string)
    ensures var r := StripRight(s);
      |r| <= |s| && r == s[..|r|]
      && (forall i :: |r| <= i < |s| ==> IsSpace(s[i]))
      && (r != [] ==> !IsSpace(r[|r| - 1]))
    decreases |s|
  {
    if s != [] && IsSpace(s[|s| - 1]) {
      StripRightSpec(s[..|s| - 1]);
    }
  }

  /**
    `strip` keeps the slice of `s` that starts where `lstrip` stops, removes
    only whitespace on either side of it, and leaves a result that neither
    starts nor ends with whitespace.
   */
  lemma StripSpec(s: string)
    ensures var k, r := |s| - |StripLeft(s)|, Strip(s);
      0 <= k && k + |r| <= |s| && r == s[k..k + |r|]
      && (forall i :: 0 <= i < |s| && !(k <= i < k + |r|) ==> IsSpace(s[i]))
      && (r == [] || (!IsSpace(r[0]) && !IsSpace(r[|r| - 1])))
  {
    var l := StripLeft(s);
    StripLeftSpec(s);
    StripRightSpec(l);
    var r := StripRight(l);
    var k := |s| - |l|;
    forall i | 0 <= i < |s| && !(k <= i < k + |r|)
      ensures IsSpace(s[i])
    {
      if i >= k {
        assert s[i] == l[i - k];
      }
    }
    if r != [] {
      assert r[0] == l[0];
    }
  }

  /** Stripping leaves nothing exactly when the string is all whitespace. */
  lemma StripBlank(s: string)
    ensures Strip(s) == [] <==> forall i :: 0 <= i < |s| ==> IsSpace(s[i])
  {
    var l := StripLeft(s);
    StripLeftSpec(s);
    StripRightSpec(l);
    if l != [] {
      assert StripRight(l)[0] == l[0];
      assert s[|s| - |l|] == l[0];
    }
  }

  /** `s.startswith(prefix)`. */
  function StartsWith(s: string, prefix: string): (r: bool)
    ensures r <==> |prefix| <= |s| && s[..|prefix|] == prefix
  {
    prefix <= s
  }

  /** `s[:n]`: the first `n` characters, or all of `s` when it is shorter. */
  function Take(s: string, n: nat): (r: string)
    ensures |r| <= n && r <= s
    ensures |s| <= n ==> r == s
    ensures |s| > n ==> |r| == n
  {
    if |s| <= n then s else s[..n]
  }

  /** An ASCII capital letter. */
  predicate IsUpper(c: char)
  {
    'A' <= c <= 'Z'
  }

  /**
    `c.lower()` where the result is one character of plain ASCII: the ASCII
    capitals and the Kelvin sign U+212A, which lowers to `k`. Every other
    character is left as it is.
   */
  function LowerChar(c: char): char
  {
    if IsUpper(c) then (c as int + 32) as char
    else if c == '\U{212A}' then 'k'
    else c
  }

  /** `s.lower()`, character by character. */
  function Lower(s: string): (r: string)
    ensures |r| == |s|
  {
    seq(|s|, i requires 0 <= i < |s| => LowerChar(s[i]))
  }

  /**
    Lowering keeps the length and leaves no ASCII capital and no Kelvin
    sign; a character
    changes exactly when it is an ASCII capital or the Kelvin sign, an ASCII
    capital becoming the small letter 32 code points above it and the
    Kelvin sign becoming `k`.
   */
  lemma LowerSpec(s: string)
    ensures var r := Lower(s);
      && |r| == |s|
      && (forall i :: 0 <= i < |r| ==> !IsUpper(r[i]) && r[i] != '\U{212A}')
      && (forall i :: 0 <= i < |s| ==> (r[i] != s[i] <==> IsUpper(s[i]) || s[i] == '\U{212A}'))
      && (forall i :: 0 <= i < |s| && IsUpper(s[i]) ==> 'a' <= r[i] <= 'z' && r[i] as int - s[i] as int == 32)
      && (forall i :: 0 <= i < |s| && s[i] == '\U{212A}' ==> r[i] == 'k')
  {
  }

  /** Lowering a string with no ASCII capital and no Kelvin sign leaves it unchanged. */
  lemma LowerUnchanged(s: string)
    requires forall i :: 0 <= i < |s| ==> !IsUpper(s[i]) && s[i] != '\U{212A}'
    ensures Lower(s) == s
  {
  }

  /**
    `s.split(sep)`: the pieces between occurrences of `sep`; an empty string
    yields one empty piece and a trailing separator yields a final empty piece.
   */
  function Split(s: string, sep: char): (r: seq<string>)
    ensures |r| >= 1
    decreases |s|
  {
    if s == [] then [""]
    else
      var rest := Split(s[1..], sep);
      if s[0] == sep then [""] + rest
      else [[s[0]] + rest[0]] + rest[1..]
  }

  /** There is one more piece than there are separators, and no piece holds a separator. */
  lemma {:induction false} SplitPieces(s: string, sep: char)
    ensures |Split(s, sep)| == multiset(s)[sep] + 1
    ensures forall i :: 0 <= i < |Split(s, sep)| ==> sep !in Split(s, sep)[i]
    decreases |s|
  {
    if s != [] {
      var rest := Split(s[1..], sep);
      SplitPieces(s[1..], sep);
      assert s == [s[0]] + s[1..];
      var r := Split(s, sep);
      if s[0] != sep {
        assert r[0] == [s[0]] + rest[0];
        forall i | 1 <= i < |r|
          ensures sep !in r[i]
        {
          assert r[i] == rest[i];
        }
      } else {
        forall i | 1 <= i < |r|
          ensures sep !in r[i]
        {
          assert r[i] == rest[i - 1];
        }
      }
    }
  }

  /** `sep.join(parts)`. */
  function Join(parts: seq<string>, sep: char): string
    requires parts != []
  {
    if |parts| == 1 then parts[0] else parts[0] + [sep] + Join(parts[1..], sep)
  }

  /** Joining the pieces of a split gives back the string that was split. */
  lemma {:induction false} JoinSplit(s: string, sep: char)
    ensures Join(Split(s, sep), sep) == s
    decreases |s|
  {
    if s != [] {
      var tail := s[1..];
      JoinSplit(tail, sep);
      var rest := Split(tail, sep);
      var parts := Split(s, sep);
      assert s == [s[0]] + tail;
      if s[0] == sep {
        assert parts == [""] + rest;
        assert parts[1..] == rest;
        assert Join(parts, sep) == "" + [sep] + Join(rest, sep);
      } else {
        assert parts == [[s[0]] + rest[0]] + rest[1..];
        if |rest| == 1 {
          assert Join(parts, sep) == [s[0]] + rest[0];
        } else {
          assert parts[1..] == rest[1..];
          assert Join(rest, sep) == rest[0] + [sep] + Join(rest[1..], sep);
          assert Join(parts, sep) == ([s[0]] + rest[0]) + [sep] + Join(rest[1..], sep);
        }
      }
    }
  }

  /** Splitting `p + t`, where `p` holds no separator, glues `p` onto the first piece of `t`. */
  lemma {:induction false} SplitAfterPlain(p: string, t: string, sep: char)
    requires sep !in p
    ensures Split(p + t, sep) == [p + Split(t, sep)[0]] + Split(t, sep)[1..]
    decreases |p|
  {
    var pieces := Split(t, sep);
    if p == [] {
      assert p + t == t;
      assert p + pieces[0] == pieces[0];
      assert [pieces[0]] + pieces[1..] == pieces;
    } else {
      var q := p[1..];
      SplitAfterPlain(q, t, sep);
      var rest := Split(q + t, sep);
      assert rest == [q + pieces[0]] + pieces[1..];
      assert (p + t)[1..] == q + t;
      assert p[0] != sep;
      assert Split(p + t, sep) == [[p[0]] + rest[0]] + rest[1..];
      assert [p[0]] + (q + pieces[0]) == p + pieces[0];
    }
  }

  /** A string that starts with the separator splits into an empty piece followed by the pieces of the rest. */
  lemma SplitAtSeparator(rest: string, sep: char)
    ensures Split([sep] + rest, sep) == [""] + Split(rest, sep)
  {
    assert ([sep] + rest)[1..] == rest;
  }

  /** Splitting a join of separator-free pieces gives back the pieces. */
  lemma {:induction false} SplitJoin(parts: seq<string>, sep: char)
    requires parts != []
    requires forall i :: 0 <= i < |parts| ==> sep !in parts[i]
    ensures Split(Join(parts, sep), sep) == parts
    decreases |parts|
  {
    if |parts| == 1 {
      SplitAfterPlain(parts[0], "", sep);
      assert parts[0] + "" == parts[0];
    } else {
      var rest := Join(parts[1..], sep);
      SplitJoin(parts[1..], sep);
      SplitAtSeparator(rest, sep);
      var tail := [sep] + rest;
      SplitAfterPlain(parts[0], tail, sep);
      assert Join(parts, sep) == parts[0] + tail;
      var pieces := Split(tail, sep);
      assert pieces == [""] + parts[1..];
      assert pieces[0] == "" && pieces[1..] == parts[1..];
      assert parts[0] + pieces[0] == parts[0];
      assert parts == [parts[0]] + parts[1..];
    }
  }
}
