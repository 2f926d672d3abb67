/** The string functions of Go's standard library that the models use: `strings.Index`, `strings.Replace(..., -1)` and `strings.Split`. */
module Text {

  predicate StartsAt(s: string, sub: string, i: nat) {
    i + |sub| <= |s| && s[i..i + |sub|] == sub
  }

  /** The first position at which `sub` occurs, or -1. */
  function Index(s: string, sub: string): (r: int)
    ensures r == -1 || 0 <= r <= |s| - |sub|
  {
    IndexFrom(s, sub, 0)
  }

  function IndexFrom(s: string, sub: string, from: nat): (r: int)
    requires from <= |s|
    ensures r == -1 || from <= r <= |s| - |sub|
    decreases |s| - from
  {
    if StartsAt(s, sub, from) then from
    else if from == |s| then -1
    else IndexFrom(s, sub, from + 1)
  }

  lemma {:induction false} IndexFromMeans(s: string, sub: string, from: nat)
    requires from <= |s|
    ensures IndexFrom(s, sub, from) == -1 ==> forall i: nat :: i >= from ==> !StartsAt(s, sub, i)
    ensures IndexFrom(s, sub, from) >= 0 ==>
              && StartsAt(s, sub, IndexFrom(s, sub, from))
              && forall i: nat :: from <= i < IndexFrom(s, sub, from) ==> !StartsAt(s, sub, i)
    decreases |s| - from
  {
    if !StartsAt(s, sub, from) && from < |s| { IndexFromMeans(s, sub, from + 1); }
  }

  lemma IndexMeans(s: string, sub: string)
    ensures Index(s, sub) == -1 <==> forall i: nat :: !StartsAt(s, sub, i)
    ensures Index(s, sub) >= 0 ==>
              StartsAt(s, sub, Index(s, sub)) && forall i: nat :: i < Index(s, sub) ==> !StartsAt(s, sub, i)
  {
    IndexFromMeans(s, sub, 0);
  }

  /** Replaces the occurrences of `pattern`, leftmost first and without overlap. */
  function ReplaceAll(s: string, pattern: string, value: string): string
    requires pattern != ""
  {
    if |s| < |pattern| then s
    else if StartsAt(s, pattern, 0) then value + ReplaceAll(s[|pattern|..], pattern, value)
    else [s[0]] + ReplaceAll(s[1..], pattern, value)
  }

  /** No occurrence of `sub` in `p + rest` begins inside `p`. */
  ghost predicate NoStart(p: string, rest: string, sub: string) {
    forall i: nat :: i < |p| ==> !StartsAt(p + rest, sub, i)
  }

  lemma StartsAfter(p: string, rest: string, sub: string, i: nat)
    ensures StartsAt(p + rest, sub, |p| + i) <==> StartsAt(rest, sub, i)
  {
    if |p| + i + |sub| <= |p| + |rest| {
      assert (p + rest)[|p| + i..|p| + i + |sub|] == rest[i..i + |sub|];
    }
  }

  lemma NoStartConcat(p: string, q: string, rest: string, sub: string)
    requires NoStart(p, q + rest, sub) && NoStart(q, rest, sub)
    ensures NoStart(p + q, rest, sub)
  {
    assert (p + q) + rest == p + (q + rest);
    forall i: nat | i < |p + q|
      ensures !StartsAt((p + q) + rest, sub, i)
    {
      if i >= |p| {
        StartsAfter(p, q + rest, sub, i - |p|);
      }
    }
  }

  lemma IndexSkips(p: string, rest: string, sub: string)
    requires NoStart(p, rest, sub)
    ensures Index(p + rest, sub) == if Index(rest, sub) == -1 then -1 else |p| + Index(rest, sub)
  {
    var r := Index(p + rest, sub);
    IndexMeans(p + rest, sub);
    IndexMeans(rest, sub);
    if r >= 0 {
      StartsAfter(p, rest, sub, r - |p|);
    }
    if Index(rest, sub) >= 0 {
      StartsAfter(p, rest, sub, Index(rest, sub));
    }
    if r >= 0 && Index(rest, sub) >= 0 && r > |p| + Index(rest, sub) {
      assert false;
    }
  }

  /** The first occurrence is right after a part in which none begins. */
  lemma IndexAfter(p: string, sub: string, rest: string)
    requires NoStart(p, sub + rest, sub)
    ensures Index(p + (sub + rest), sub) == |p|
  {
    assert (sub + rest)[0..|sub|] == sub;
    assert StartsAt(sub + rest, sub, 0);
    IndexMeans(sub + rest, sub);
    IndexSkips(p, sub + rest, sub);
  }

  lemma ReplaceSkipsOne(c: char, rest: string, pattern: string, value: string)
    requires pattern != "" && !StartsAt([c] + rest, pattern, 0)
    ensures ReplaceAll([c] + rest, pattern, value) == [c] + ReplaceAll(rest, pattern, value)
  {
    assert ([c] + rest)[1..] == rest;
  }

  lemma {:induction false} ReplaceSkips(p: string, rest: string, pattern: string, value: string)
    requires pattern != ""
    requires NoStart(p, rest, pattern)
    ensures ReplaceAll(p + rest, pattern, value) == p + ReplaceAll(rest, pattern, value)
  {
    hide ReplaceAll, StartsAt;
    if p == "" {
      assert p + rest == rest;
    } else {
      var tail := p[1..];
      assert p + rest == [p[0]] + (tail + rest);
      forall i: nat | i < |tail|
        ensures !StartsAt(tail + rest, pattern, i)
      {
        StartsAfter([p[0]], tail + rest, pattern, i);
        assert !StartsAt(p + rest, pattern, i + 1);
      }
      ReplaceSkips(tail, rest, pattern, value);
      assert !StartsAt(p + rest, pattern, 0);
      ReplaceSkipsOne(p[0], tail + rest, pattern, value);
      assert [p[0]] + (tail + ReplaceAll(rest, pattern, value)) == p + ReplaceAll(rest, pattern, value);
    }
  }

  lemma ReplaceTakes(rest: string, pattern: string, value: string)
    requires pattern != ""
    ensures ReplaceAll(pattern + rest, pattern, value) == value + ReplaceAll(rest, pattern, value)
  {
    assert (pattern + rest)[0..|pattern|] == pattern;
    assert (pattern + rest)[|pattern|..] == rest;
  }

  lemma {:induction false} ReplaceBySame(s: string, pattern: string)
    requires pattern != ""
    ensures ReplaceAll(s, pattern, pattern) == s
  {
    if |s| >= |pattern| {
      if StartsAt(s, pattern, 0) {
        ReplaceBySame(s[|pattern|..], pattern);
        assert s == pattern + s[|pattern|..];
      } else {
        ReplaceBySame(s[1..], pattern);
      }
    }
  }

  ghost predicate Occurs(s: string, pattern: string) {
    exists i: nat :: StartsAt(s, pattern, i)
  }

  lemma OccursLater(c: char, rest: string, pattern: string)
    requires Occurs([c] + rest, pattern) && !StartsAt([c] + rest, pattern, 0)
    ensures Occurs(rest, pattern)
  {
    var i: nat :| StartsAt([c] + rest, pattern, i);
    StartsAfter([c], rest, pattern, i - 1);
  }

  /** Replacing a pattern that occurs by a text of another length changes the length. */
  lemma {:induction false} ReplaceLength(s: string, pattern: string, value: string)
    requires pattern != ""
    ensures |value| >= |pattern| ==> |ReplaceAll(s, pattern, value)| >= |s|
    ensures |value| <= |pattern| ==> |ReplaceAll(s, pattern, value)| <= |s|
    ensures Occurs(s, pattern) && |value| > |pattern| ==> |ReplaceAll(s, pattern, value)| > |s|
    ensures Occurs(s, pattern) && |value| < |pattern| ==> |ReplaceAll(s, pattern, value)| < |s|
  {
    if |s| >= |pattern| {
      if StartsAt(s, pattern, 0) {
        ReplaceLength(s[|pattern|..], pattern, value);
      } else {
        ReplaceLength(s[1..], pattern, value);
        assert s == [s[0]] + s[1..];
        if Occurs(s, pattern) { OccursLater(s[0], s[1..], pattern); }
      }
    }
  }

  lemma {:induction false} ReplaceSameLength(s: string, pattern: string, value: string)
    requires pattern != "" && |value| == |pattern| && value != pattern && Occurs(s, pattern)
    ensures ReplaceAll(s, pattern, value) != s
  {
    var r := ReplaceAll(s, pattern, value);
    if StartsAt(s, pattern, 0) {
      assert r[..|pattern|] == value && s[..|pattern|] == pattern;
    } else {
      assert s == [s[0]] + s[1..];
      OccursLater(s[0], s[1..], pattern);
      ReplaceSameLength(s[1..], pattern, value);
      assert r[1..] == ReplaceAll(s[1..], pattern, value);
    }
  }

  /** Replacing a pattern that occurs by anything else changes the text. */
  lemma ReplaceChanges(s: string, pattern: string, value: string)
    requires pattern != "" && value != pattern && Occurs(s, pattern)
    ensures ReplaceAll(s, pattern, value) != s
  {
    if |value| == |pattern| { ReplaceSameLength(s, pattern, value); } else { ReplaceLength(s, pattern, value); }
  }

  // ----- splitting -----

  /** `strings.Split` on a one-character separator. */
  function SplitOn(s: string, sep: char): (parts: seq<string>)
    ensures |parts| >= 1
  {
    if s == "" then [""]
    else
      var rest := SplitOn(s[1..], sep);
      if s[0] == sep then [""] + rest else [[s[0]] + rest[0]] + rest[1..]
  }

  function JoinWith(parts: seq<string>, sep: char): string
    requires |parts| >= 1
  {
    if |parts| == 1 then parts[0] else parts[0] + [sep] + JoinWith(parts[1..], sep)
  }

  /** Splitting loses nothing. */
  lemma {:induction false} JoinSplit(s: string, sep: char)
    ensures JoinWith(SplitOn(s, sep), sep) == s
  {
    if s != "" {
      JoinSplit(s[1..], sep);
      var rest := SplitOn(s[1..], sep);
      var parts := SplitOn(s, sep);
      if s[0] == sep {
        assert parts[1..] == rest;
      } else {
        assert parts[1..] == rest[1..];
      }
    }
  }

  lemma {:induction false} SplitHasNoSeparator(s: string, sep: char)
    ensures forall k :: 0 <= k < |SplitOn(s, sep)| ==> sep !in SplitOn(s, sep)[k]
  {
    if s != "" { SplitHasNoSeparator(s[1..], sep); }
  }

  lemma SplitStep(c: char, s: string, sep: char)
    ensures SplitOn([c] + s, sep) ==
              if c == sep then [""] + SplitOn(s, sep) else [[c] + SplitOn(s, sep)[0]] + SplitOn(s, sep)[1..]
  {
    assert ([c] + s)[1..] == s;
  }

  /** Splitting a text at one separator first changes nothing. */
  lemma {:induction false} SplitConcat(a: string, b: string, sep: char)
    ensures SplitOn(a + [sep] + b, sep) == SplitOn(a, sep) + SplitOn(b, sep)
  {
    if a == "" {
      assert a + [sep] + b == [sep] + b;
      SplitStep(sep, b, sep);
    } else {
      var tail := a[1..];
      var left, right := SplitOn(tail, sep), SplitOn(b, sep);
      SplitConcat(tail, b, sep);
      assert a + [sep] + b == [a[0]] + (tail + [sep] + b);
      SplitStep(a[0], tail + [sep] + b, sep);
      assert a == [a[0]] + tail;
      SplitStep(a[0], tail, sep);
      AppendParts(a[0], left, right);
    }
  }

  lemma AppendParts(c: char, left: seq<string>, right: seq<string>)
    requires |left| >= 1
    ensures [""] + (left + right) == ([""] + left) + right
    ensures [[c] + (left + right)[0]] + (left + right)[1..] == ([[c] + left[0]] + left[1..]) + right
  {
    assert (left + right)[1..] == left[1..] + right;
  }

  lemma {:induction false} SplitWhole(s: string, sep: char)
    requires sep !in s
    ensures SplitOn(s, sep) == [s]
  {
    if s != "" {
      SplitWhole(s[1..], sep);
      assert [s[0]] + s[1..] == s;
    }
  }

  /** Lists of lines without separators are exactly what splitting gives. */
  lemma {:induction false} SplitJoin(parts: seq<string>, sep: char)
    requires |parts| >= 1 && forall k :: 0 <= k < |parts| ==> sep !in parts[k]
    ensures SplitOn(JoinWith(parts, sep), sep) == parts
  {
    SplitWhole(parts[0], sep);
    if |parts| > 1 {
      SplitJoin(parts[1..], sep);
      SplitConcat(parts[0], JoinWith(parts[1..], sep), sep);
    }
  }

  /** There is one part more than there are separators. */
  lemma {:induction false} SplitCount(s: string, sep: char)
    ensures |SplitOn(s, sep)| == multiset(s)[sep] + 1
  {
    if s != "" {
      SplitCount(s[1..], sep);
      assert s == [s[0]] + s[1..];
    }
  }
}
