/** What `list.sort` does: a stable sort by a total preorder, and the facts about
    sorted sequences that the other modules rely on. */
module Sorting {

  /** `leq` is reflexive, transitive and total on the elements of `s`. */
  ghost predicate Orders<T>(leq: (T, T) -> bool, s: set<T>) {
    && (forall x, y {:trigger leq(x, y)} | x in s && y in s :: leq(x, y) || leq(y, x))
    && (forall x, y, z {:trigger leq(x, y), leq(y, z)} | x in s && y in s && z in s && leq(x, y) && leq(y, z) :: leq(x, z))
  }

  ghost predicate Antisymmetric<T>(leq: (T, T) -> bool, s: set<T>) {
    forall x, y {:trigger leq(x, y)} | x in s && y in s && leq(x, y) && leq(y, x) :: x == y
  }

  function Elements<T>(xs: seq<T>): set<T> {
    set x | x in xs
  }

  ghost predicate Sorted<T>(xs: seq<T>, leq: (T, T) -> bool) {
    forall i, j | 0 <= i < j < |xs| :: leq(xs[i], xs[j])
  }

  /** Puts `x` behind every element that is not above it. */
  function Insert<T>(xs: seq<T>, x: T, leq: (T, T) -> bool): (r: seq<T>)
    ensures |r| == |xs| + 1
    ensures multiset(r) == multiset(xs) + multiset{x}
  {
    if xs == [] then [x]
    else
      var last := xs[|xs| - 1];
      assert xs == xs[..|xs| - 1] + [last];
      if leq(last, x) then xs + [x]
      else Insert(xs[..|xs| - 1], x, leq) + [last]
  }

  function StableSort<T>(xs: seq<T>, leq: (T, T) -> bool): (r: seq<T>)
    ensures |r| == |xs|
    ensures multiset(r) == multiset(xs)
  {
    if xs == [] then []
    else
      assert xs == xs[..|xs| - 1] + [xs[|xs| - 1]];
      Insert(StableSort(xs[..|xs| - 1], leq), xs[|xs| - 1], leq)
  }

  lemma {:induction false} SameElements<T>(xs: seq<T>, ys: seq<T>)
    requires multiset(xs) == multiset(ys)
    ensures Elements(xs) == Elements(ys)
    ensures forall x :: x in xs <==> x in ys
  {
    assert forall x :: x in xs <==> x in multiset(xs);
    assert forall x :: x in ys <==> x in multiset(ys);
  }

  lemma {:induction false} AppendSorted<T>(xs: seq<T>, x: T, leq: (T, T) -> bool)
    requires Sorted(xs, leq) && forall y | y in xs :: leq(y, x)
    ensures Sorted(xs + [x], leq)
  {
  }

  lemma {:induction false} InsertSorted<T>(xs: seq<T>, x: T, leq: (T, T) -> bool)
    requires Sorted(xs, leq) && Orders(leq, Elements(xs) + {x})
    ensures Sorted(Insert(xs, x, leq), leq)
  {
    if xs == [] {
      return;
    }
    var front, last := xs[..|xs| - 1], xs[|xs| - 1];
    if leq(last, x) {
      forall y | y in xs ensures leq(y, x) {
        assert y in Elements(xs) && last in Elements(xs);
        assert y == last || leq(y, last);
      }
      AppendSorted(xs, x, leq);
    } else {
      InsertSorted(front, x, leq);
      var r := Insert(front, x, leq);
      forall y | y in r ensures leq(y, last) {
        assert y in multiset(r);
        assert y == x || y in front;
        assert last in Elements(xs);
      }
      AppendSorted(r, last, leq);
    }
  }

  lemma {:induction false} SortSorted<T>(xs: seq<T>, leq: (T, T) -> bool)
    requires Orders(leq, Elements(xs))
    ensures Sorted(StableSort(xs, leq), leq)
  {
    if xs != [] {
      var front := xs[..|xs| - 1];
      assert Elements(front) <= Elements(xs);
      SortSorted(front, leq);
      SameElements(front, StableSort(front, leq));
      assert Elements(StableSort(front, leq)) + {xs[|xs| - 1]} <= Elements(xs);
      InsertSorted(StableSort(front, leq), xs[|xs| - 1], leq);
    }
  }

  lemma {:induction false} LeastFirst<T>(xs: seq<T>, x: T, leq: (T, T) -> bool)
    requires Sorted(xs, leq) && x in xs && x != xs[0]
    ensures leq(xs[0], x)
  {
    var i :| 0 <= i < |xs| && xs[i] == x;
  }

  lemma {:induction false} SameHead<T>(xs: seq<T>, ys: seq<T>, leq: (T, T) -> bool)
    requires xs != [] && ys != [] && xs[0] in ys && ys[0] in xs
    requires Sorted(xs, leq) && Sorted(ys, leq) && Antisymmetric(leq, Elements(xs))
    ensures xs[0] == ys[0]
  {
    if xs[0] != ys[0] {
      LeastFirst(xs, ys[0], leq);
      LeastFirst(ys, xs[0], leq);
    }
  }

  lemma {:induction false} SameTail<T>(xs: seq<T>, ys: seq<T>)
    requires xs != [] && ys != [] && xs[0] == ys[0] && multiset(xs) == multiset(ys)
    ensures multiset(xs[1..]) == multiset(ys[1..])
  {
    assert xs == [xs[0]] + xs[1..] && ys == [ys[0]] + ys[1..];
    assert multiset(xs[1..]) == multiset(xs) - multiset{xs[0]};
    assert multiset(ys[1..]) == multiset(ys) - multiset{ys[0]};
  }

  /** A sorted sequence over an antisymmetric order is determined by its contents. */
  lemma {:induction false} SortedUnique<T>(xs: seq<T>, ys: seq<T>, leq: (T, T) -> bool)
    requires multiset(xs) == multiset(ys)
    requires Sorted(xs, leq) && Sorted(ys, leq) && Antisymmetric(leq, Elements(xs))
    ensures xs == ys
  {
    assert |xs| == |multiset(xs)| == |multiset(ys)| == |ys|;
    if xs != [] {
      SameElements(xs, ys);
      assert xs[0] in ys && ys[0] in xs;
      SameHead(xs, ys, leq);
      SameTail(xs, ys);
      assert Elements(xs[1..]) <= Elements(xs);
      SortedUnique(xs[1..], ys[1..], leq);
      assert xs == [xs[0]] + xs[1..] && ys == [ys[0]] + ys[1..];
    }
  }

  /** Sorting does not depend on the order the elements come in. */
  lemma {:induction false} SortOfPermutation<T>(xs: seq<T>, ys: seq<T>, leq: (T, T) -> bool)
    requires multiset(xs) == multiset(ys)
    requires Orders(leq, Elements(xs)) && Antisymmetric(leq, Elements(xs))
    ensures StableSort(xs, leq) == StableSort(ys, leq)
  {
    SameElements(xs, ys);
    SameElements(xs, StableSort(xs, leq));
    SortSorted(xs, leq);
    SortSorted(ys, leq);
    SortedUnique(StableSort(xs, leq), StableSort(ys, leq), leq);
  }

  /** Sorting a sorted list with one more element behind it is inserting it. */
  lemma {:induction false} SortOfSorted<T>(xs: seq<T>, leq: (T, T) -> bool)
    requires Sorted(xs, leq)
    ensures StableSort(xs, leq) == xs
  {
    if xs != [] {
      var front := xs[..|xs| - 1];
      assert Sorted(front, leq);
      SortOfSorted(front, leq);
      assert xs == front + [xs[|xs| - 1]];
      assert front != [] ==> leq(front[|front| - 1], xs[|xs| - 1]);
    }
  }

  // ----- Keeping the smallest -----

  function Smallest<T>(k: nat, sorted: seq<T>): seq<T> {
    if |sorted| <= k then sorted else sorted[..k]
  }

  lemma {:induction false} SmallestIgnoresRest<T>(k: nat, xs: seq<T>, rest: seq<T>)
    requires k <= |xs|
    ensures Smallest(k, xs + rest) == Smallest(k, xs)
  {
    assert (xs + rest)[..k] == xs[..k];
    if rest == [] {
      assert xs + rest == xs;
    }
    if |xs| == k {
      assert xs[..k] == xs;
    }
  }

  lemma {:induction false} InsertAbove<T>(xs: seq<T>, x: T, leq: (T, T) -> bool)
    requires forall y | y in xs :: leq(y, x)
    ensures Insert(xs, x, leq) == xs + [x]
  {
  }

  lemma {:induction false} InsertAboveLast<T>(xs: seq<T>, x: T, leq: (T, T) -> bool)
    requires xs != [] && leq(xs[|xs| - 1], x)
    requires Sorted(xs, leq) && Orders(leq, Elements(xs) + {x})
    ensures Insert(xs[..|xs| - 1], x, leq) == xs[..|xs| - 1] + [x]
  {
    var last := xs[|xs| - 1];
    forall y | y in xs[..|xs| - 1] ensures leq(y, x) {
      assert y in Elements(xs) && last in Elements(xs);
      assert leq(y, last);
    }
    InsertAbove(xs[..|xs| - 1], x, leq);
  }

  lemma {:induction false} KeepSmallestStep<T>(k: nat, xs: seq<T>, x: T, leq: (T, T) -> bool)
    requires |xs| > k && Sorted(xs, leq) && Orders(leq, Elements(xs) + {x})
    ensures Smallest(k, xs) == Smallest(k, xs[..|xs| - 1])
    ensures Smallest(k, Insert(xs, x, leq)) == Smallest(k, Insert(xs[..|xs| - 1], x, leq))
  {
    var front, last := xs[..|xs| - 1], xs[|xs| - 1];
    assert xs == front + [last];
    SmallestIgnoresRest(k, front, [last]);
    if leq(last, x) {
      InsertAboveLast(xs, x, leq);
      SmallestIgnoresRest(k, front, [x]);
      SmallestIgnoresRest(k, xs, [x]);
    } else {
      SmallestIgnoresRest(k, Insert(front, x, leq), [last]);
    }
  }

  /** What was cut off a sorted list can never come back: inserting into the `k`
      smallest and cutting again gives the `k` smallest of the longer list. */
  lemma {:induction false} KeepSmallest<T>(k: nat, xs: seq<T>, x: T, leq: (T, T) -> bool)
    requires Sorted(xs, leq) && Orders(leq, Elements(xs) + {x})
    ensures Smallest(k, Insert(Smallest(k, xs), x, leq)) == Smallest(k, Insert(xs, x, leq))
  {
    if |xs| > k {
      assert Elements(xs[..|xs| - 1]) <= Elements(xs);
      KeepSmallest(k, xs[..|xs| - 1], x, leq);
      KeepSmallestStep(k, xs, x, leq);
    }
  }

  lemma {:induction false} SortOfAppended<T>(xs: seq<T>, x: T, leq: (T, T) -> bool)
    ensures StableSort(xs + [x], leq) == Insert(StableSort(xs, leq), x, leq)
  {
    assert (xs + [x])[..|xs|] == xs;
  }

  /** Streaming: sorting the kept elements with one more and cutting again gives the
      `k` smallest of all the elements so far. */
  lemma {:induction false} KeepSmallestOfAll<T>(k: nat, xs: seq<T>, x: T, leq: (T, T) -> bool)
    requires Orders(leq, Elements(xs) + {x})
    ensures Smallest(k, StableSort(Smallest(k, StableSort(xs, leq)) + [x], leq)) ==
            Smallest(k, StableSort(xs + [x], leq))
  {
    var sorted := StableSort(xs, leq);
    var kept := Smallest(k, sorted);
    SortSorted(xs, leq);
    SameElements(xs, sorted);
    assert Elements(sorted) == Elements(xs);
    KeepSmallest(k, sorted, x, leq);
    assert Sorted(kept, leq);
    SortOfSorted(kept, leq);
    SortOfAppended(xs, x, leq);
    SortOfAppended(kept, x, leq);
  }
}
