/** Repetition in sequences, and the few operations on them the modules share. */
module Sequences {

  /** 0, 1, ..., n - 1 */
  function UpTo(n: nat): seq<int> {
    seq(n, i => i)
  }

  function Concat<T>(xss: seq<seq<T>>): seq<T> {
    if xss == [] then [] else Concat(xss[..|xss| - 1]) + xss[|xss| - 1]
  }

  ghost predicate NoDuplicates<T>(xs: seq<T>) {
    forall i, j | 0 <= i < j < |xs| :: xs[i] != xs[j]
  }

  lemma {:induction false} TwiceIn<T>(xs: seq<T>, i: nat, j: nat)
    requires i < j < |xs| && xs[i] == xs[j]
    ensures multiset(xs)[xs[i]] >= 2
  {
    assert xs == xs[..i] + [xs[i]] + xs[i + 1..j] + [xs[j]] + xs[j + 1..];
  }

  lemma {:induction false} TwoPlaces<T>(xs: seq<T>, x: T) returns (i: nat, j: nat)
    requires multiset(xs)[x] >= 2
    ensures i < j < |xs| && xs[i] == x && xs[j] == x
  {
    assert xs == xs[..|xs| - 1] + [xs[|xs| - 1]];
    if xs[|xs| - 1] == x {
      assert x in multiset(xs[..|xs| - 1]);
      i :| 0 <= i < |xs| - 1 && xs[i] == x;
      j := |xs| - 1;
    } else {
      i, j := TwoPlaces(xs[..|xs| - 1], x);
    }
  }

  lemma {:induction false} OnceInDistinct<T>(xs: seq<T>, x: T)
    requires NoDuplicates(xs)
    ensures multiset(xs)[x] == if x in xs then 1 else 0
  {
    if xs != [] {
      assert xs == xs[..|xs| - 1] + [xs[|xs| - 1]];
      OnceInDistinct(xs[..|xs| - 1], x);
    }
  }
}
