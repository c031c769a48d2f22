/**
 * Iteration over a Python `set`: every element exactly once, in an order the language leaves
 * unspecified.
 */
module Enumerations {

  /** `xs` lists every element of `s` exactly once. */
  predicate IsEnumeration<T>(xs: seq<T>, s: set<T>) {
    && (forall i :: 0 <= i < |xs| ==> xs[i] in s)
    && (forall x :: x in s ==> x in xs)
    && (forall i, j :: 0 <= i < j < |xs| ==> xs[i] != xs[j])
  }

  /** The elements of a sequence, as a set. */
  function SetOf<T(!new)>(xs: seq<T>): (s: set<T>)
    ensures forall x :: x in s <==> x in xs
  {
    set x | x in xs
  }

  /** `for x in s`: the order in which the loop visits the elements. */
  method Enumerate<T>(s: set<T>) returns (xs: seq<T>)
    ensures IsEnumeration(xs, s)
    ensures |xs| == |s|
  {
    xs := [];
    var remaining := s;
    while remaining != {}
      invariant remaining <= s
      invariant IsEnumeration(xs, s - remaining)
      invariant |xs| + |remaining| == |s|
      decreases |remaining|
    {
      var x :| x in remaining;
      xs := xs + [x];
      remaining := remaining - {x};
    }
  }

  /** `s = set()` followed by `s.add(x)` for each `x` of `xs`. */
  method CollectSet<T(!new)>(xs: seq<T>) returns (s: set<T>)
    ensures s == SetOf(xs)
  {
    s := {};
    var i := 0;
    while i < |xs|
      invariant 0 <= i <= |xs|
      invariant s == SetOf(xs[..i])
    {
      assert xs[..i + 1] == xs[..i] + [xs[i]];
      SetOfAppend(xs[..i], xs[i]);
      s := s + {xs[i]};
      i := i + 1;
    }
    assert xs[..i] == xs;
  }

  lemma SetOfAppend<T(!new)>(xs: seq<T>, x: T)
    ensures SetOf(xs + [x]) == SetOf(xs) + {x}
  {
  }

  /** A set built from a sequence has at most as many elements as the sequence. */
  lemma {:induction false} SetOfSize<T(!new)>(xs: seq<T>)
    ensures |SetOf(xs)| <= |xs|
  {
    if xs != [] {
      var init := xs[..|xs| - 1];
      assert xs == init + [xs[|xs| - 1]];
      SetOfAppend(init, xs[|xs| - 1]);
      SetOfSize(init);
    }
  }

  /** An enumeration of a set is as long as the set is large. */
  lemma {:induction false} EnumerationSize<T>(xs: seq<T>, s: set<T>)
    requires IsEnumeration(xs, s)
    ensures |xs| == |s|
    decreases |xs|
  {
    if xs != [] {
      var last := xs[|xs| - 1];
      var init := xs[..|xs| - 1];
      assert IsEnumeration(init, s - {last}) by {
        forall x | x in s - {last} ensures x in init {
          var k :| 0 <= k < |xs| && xs[k] == x;
          assert k != |xs| - 1;
        }
      }
      EnumerationSize(init, s - {last});
    } else {
      assert s == {};
    }
  }
}
