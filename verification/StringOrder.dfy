/** The order of Go strings (compared element by element) and what `sort.Strings` guarantees. */
module StringOrder {

  predicate Less(a: string, b: string) {
    b != "" && (a == "" || a[0] < b[0] || (a[0] == b[0] && Less(a[1..], b[1..])))
  }

  predicate AtMost(a: string, b: string) {
    a == b || Less(a, b)
  }

  /** The first difference decides, by the order of the characters; without one, the shorter string comes first. */
  lemma {:induction false} LessExactlyWhen(a: string, b: string)
    ensures Less(a, b) <==>
              || (|a| < |b| && a == b[..|a|])
              || exists i: nat :: i < |a| && i < |b| && a[..i] == b[..i] && a[i] < b[i]
  {
    if a != "" && b != "" {
      var s, t := a[1..], b[1..];
      LessExactlyWhen(s, t);
      if a[0] < b[0] {
        assert a[..0] == b[..0];
      } else if a[0] == b[0] {
        assert |a| < |b| && a == b[..|a|] <==> |s| < |t| && s == t[..|s|] by {
          assert a == [a[0]] + s;
          assert |a| <= |b| ==> b[..|a|] == [b[0]] + t[..|s|];
        }
        if i: nat :| i < |s| && i < |t| && s[..i] == t[..i] && s[i] < t[i] {
          assert a[..i + 1] == [a[0]] + s[..i] == b[..i + 1];
          assert a[i + 1] < b[i + 1];
        }
        if i: nat :| i < |a| && i < |b| && a[..i] == b[..i] && a[i] < b[i] {
          assert s[..i - 1] == a[..i][1..] == b[..i][1..] == t[..i - 1];
          assert s[i - 1] < t[i - 1];
        }
      } else {
        assert forall i: nat :: 0 < i <= |a| && i <= |b| ==> a[..i][0] == a[0] && b[..i][0] == b[0];
      }
    }
  }

  lemma {:induction false} LessIrreflexive(a: string)
    ensures !Less(a, a)
  {
    if a != "" { LessIrreflexive(a[1..]); }
  }

  lemma {:induction false} LessTransitive(a: string, b: string, c: string)
    requires Less(a, b) && Less(b, c)
    ensures Less(a, c)
  {
    if a != "" && a[0] == b[0] == c[0] {
      LessTransitive(a[1..], b[1..], c[1..]);
    }
  }

  lemma {:induction false} LessTotal(a: string, b: string)
    ensures a == b || Less(a, b) || Less(b, a)
  {
    if a != "" && b != "" && a[0] == b[0] {
      LessTotal(a[1..], b[1..]);
      assert a == [a[0]] + a[1..] && b == [b[0]] + b[1..];
    }
  }

  lemma {:induction false} AtMostTransitive(a: string, b: string, c: string)
    requires AtMost(a, b) && AtMost(b, c)
    ensures AtMost(a, c)
  {
    if a != b && b != c { LessTransitive(a, b, c); }
  }

  ghost predicate Sorted(s: seq<string>) {
    forall i, j :: 0 <= i < j < |s| ==> AtMost(s[i], s[j])
  }

  /** A list stays sorted when something below all of it is put in front. */
  lemma ConsSorted(x: string, s: seq<string>)
    requires Sorted(s)
    requires forall y :: y in s ==> AtMost(x, y)
    ensures Sorted([x] + s)
  {
    forall i, j | 0 <= i < j < |s| + 1
      ensures AtMost(([x] + s)[i], ([x] + s)[j])
    {
      if i == 0 { assert ([x] + s)[j] == s[j - 1]; }
    }
  }

  lemma HeadIsLeast(x: string, s: seq<string>)
    requires Sorted(s) && s != [] && AtMost(x, s[0])
    ensures forall y :: y in s ==> AtMost(x, y)
  {
    forall j | 0 <= j < |s|
      ensures AtMost(x, s[j])
    {
      AtMostTransitive(x, s[0], s[j]);
    }
  }

  function Insert(x: string, s: seq<string>): (r: seq<string>)
    requires Sorted(s)
    ensures Sorted(r)
    ensures forall y :: y in r <==> y == x || y in s
    ensures multiset(r) == multiset(s) + multiset{x}
  {
    if s == [] then [x]
    else if AtMost(x, s[0]) then
      HeadIsLeast(x, s);
      ConsSorted(x, s);
      [x] + s
    else
      LessTotal(x, s[0]);
      var rest := Insert(x, s[1..]);
      ConsSorted(s[0], rest);
      assert s == [s[0]] + s[1..];
      [s[0]] + rest
  }

  /** Models `sort.Strings`: an ascending permutation of its argument. */
  function Sort(s: seq<string>): (r: seq<string>)
    ensures Sorted(r)
    ensures multiset(r) == multiset(s)
  {
    if s == [] then []
    else
      assert s == [s[0]] + s[1..];
      Insert(s[0], Sort(s[1..]))
  }

  /** Lists of equal length compared at the first position where they differ. */
  ghost predicate ListAtMost(a: seq<string>, b: seq<string>) {
    a == b || exists i: nat :: FirstDifference(a, b, i) && Less(a[i], b[i])
  }

  ghost predicate FirstDifference(a: seq<string>, b: seq<string>, i: nat) {
    i < |a| && i < |b| && a[..i] == b[..i] && a[i] != b[i]
  }

  lemma {:induction false} ListAtMostAntisymmetric(a: seq<string>, b: seq<string>)
    requires ListAtMost(a, b) && ListAtMost(b, a)
    ensures a == b
  {
    if a != b {
      var i: nat :| FirstDifference(a, b, i) && Less(a[i], b[i]);
      var j: nat :| FirstDifference(b, a, j) && Less(b[j], a[j]);
      LessTransitive(a[i], b[i], a[i]);
      LessIrreflexive(a[i]);
    }
  }
}
