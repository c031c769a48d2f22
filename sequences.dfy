/** Facts about slicing a concatenation, and a concatenating map that may fail, proved once. */
module Sequences {
  import opened Wrappers

  /** Dropping the last element of `a + b` drops the last element of `b`. */
  lemma SnocSplit<T>(a: seq<T>, b: seq<T>)
    requires b != []
    ensures (a + b)[..|a + b| - 1] == a + b[..|b| - 1]
    ensures (a + b)[|a + b| - 1] == b[|b| - 1]
  {
  }

  lemma AppendEmpty<T>(a: seq<T>)
    ensures a + [] == a
  {
  }

  /** A sequence is its prefix followed by its suffix. */
  lemma SplitAt<T>(t: seq<T>, n: nat)
    requires n <= |t|
    ensures t == t[..n] + t[n..]
  {
  }

  /** The results of `f` on each element, concatenated in order; the first failure stops it. */
  function ConcatMapResult<T, U, E>(f: T -> Result<seq<U>, E>, xs: seq<T>): Result<seq<U>, E> {
    if xs == [] then Success([])
    else
      match ConcatMapResult(f, xs[..|xs| - 1])
      case Failure(e) => Failure(e)
      case Success(acc) =>
        match f(xs[|xs| - 1])
        case Failure(e) => Failure(e)
        case Success(ys) => Success(acc + ys)
  }

  /** Once an element fails, the elements after it change nothing. */
  lemma {:induction false} ConcatMapFailurePersists<T, U, E>(f: T -> Result<seq<U>, E>, a: seq<T>, b: seq<T>)
    requires ConcatMapResult(f, a).Failure?
    ensures ConcatMapResult(f, a + b) == ConcatMapResult(f, a)
    decreases |b|
  {
    if b == [] {
      AppendEmpty(a);
    } else {
      SnocSplit(a, b);
      ConcatMapFailurePersists(f, a, b[..|b| - 1]);
    }
  }

  /** The concatenating map distributes over concatenation. */
  lemma {:induction false} ConcatMapAppend<T, U, E>(f: T -> Result<seq<U>, E>, a: seq<T>, b: seq<T>)
    requires ConcatMapResult(f, a).Success? && ConcatMapResult(f, b).Success?
    ensures ConcatMapResult(f, a + b) == Success(ConcatMapResult(f, a).value + ConcatMapResult(f, b).value)
    decreases |b|
  {
    if b == [] {
      AppendEmpty(a);
      AppendEmpty(ConcatMapResult(f, a).value);
    } else {
      var b' := b[..|b| - 1];
      SnocSplit(a, b);
      ConcatMapAppend(f, a, b');
      var x, y, z := ConcatMapResult(f, a).value, ConcatMapResult(f, b').value, f(b[|b| - 1]).value;
      assert (x + y) + z == x + (y + z);
    }
  }
}
