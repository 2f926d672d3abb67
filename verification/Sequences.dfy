/** Facts about sequences shared by the models: distinct elements, counting and the set of elements. */
module Sequences {

  ghost predicate Distinct<T>(s: seq<T>) {
    forall i, j :: 0 <= i < j < |s| ==> s[i] != s[j]
  }

  function Elements<T>(s: seq<T>): set<T> {
    set x | x in s
  }

  /** A list without repetitions is no longer than any set that holds its elements. */
  lemma {:induction false} DistinctIsShort<T>(s: seq<T>, bound: set<T>)
    requires Distinct(s)
    requires forall x :: x in s ==> x in bound
    ensures |s| <= |bound|
  {
    if s != [] {
      var rest := s[..|s| - 1];
      var last := s[|s| - 1];
      DistinctIsShort(rest, bound - {last});
    }
  }

  /** Two repetition-free lists over the same elements are permutations of each other. */
  lemma {:induction false} DistinctPermutation<T>(s: seq<T>, t: seq<T>)
    requires Distinct(s) && Distinct(t)
    requires forall x :: x in s <==> x in t
    ensures multiset(s) == multiset(t)
    ensures |s| == |t|
  {
    forall x
      ensures multiset(s)[x] == multiset(t)[x]
    {
      DistinctMultiplicity(s, x);
      DistinctMultiplicity(t, x);
    }
    assert |multiset(s)| == |s| && |multiset(t)| == |t|;
  }

  lemma {:induction false} DistinctMultiplicity<T>(s: seq<T>, x: T)
    requires Distinct(s)
    ensures multiset(s)[x] == if x in s then 1 else 0
  {
    if s != [] {
      var rest := s[..|s| - 1];
      DistinctMultiplicity(rest, x);
      assert s == rest + [s[|s| - 1]];
    }
  }

  /** As many distinct elements as the set holds leave none out. */
  lemma {:induction false} DistinctCovers<T>(s: seq<T>, all: seq<T>)
    requires Distinct(s) && Distinct(all)
    requires forall x :: x in s ==> x in all
    requires |s| >= |all|
    ensures forall x :: x in all ==> x in s
  {
    if x :| x in all && x !in s {
      DistinctIsShort(s, Elements(all) - {x});
      ElementsSize(all);
      assert false;
    }
  }

  lemma {:induction false} ElementsSize<T>(s: seq<T>)
    requires Distinct(s)
    ensures |Elements(s)| == |s|
  {
    if s != [] {
      var rest, last := s[..|s| - 1], s[|s| - 1];
      ElementsSize(rest);
      assert s == rest + [last] && last !in rest;
      assert Elements(s) == Elements(rest) + {last};
    }
  }

  /** The elements of a set in some order. */
  lemma {:induction false} SomeOrder<T>(elements: set<T>) returns (order: seq<T>)
    ensures Distinct(order) && forall x :: x in order <==> x in elements
  {
    if elements == {} { return []; }
    var x :| x in elements;
    order := SomeOrder(elements - {x});
    order := order + [x];
  }
}
