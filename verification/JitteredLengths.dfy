/** Request lengths that vary below a target: shuffled cycles over all the lengths of a
    range, cut to the number of requests. */
module JitteredLengths {
  import opened Wrappers
  import opened Sequences
  import opened Sorting

  datatype LengthError = NotPositive | BadJitter | OneLengthOnly

  /** Python's `round` to an integer: halves go to the even neighbour. */
  function Round(x: real): int {
    var floor := x.Floor;
    var part := x - floor as real;
    if part < 0.5 || (part == 0.5 && floor % 2 == 0) then floor else floor + 1
  }

  /** No integer is nearer, and of two equally near ones it is the even one. */
  lemma {:induction false} RoundIsNearest(x: real, other: int)
    ensures Distance(x, Round(x)) <= Distance(x, other)
    ensures Distance(x, Round(x)) == Distance(x, other) && other != Round(x) ==> Round(x) % 2 == 0
  {
    var floor := x.Floor;
    assert floor as real <= x < (floor + 1) as real;
    assert other <= floor || other >= floor + 1;
  }

  function Distance(x: real, n: int): real {
    if x >= n as real then x - n as real else n as real - x
  }

  function Max(a: int, b: int): int { if a >= b then a else b }

  function LowerBound(target: int, jitter: real): int {
    Max(1, target - Max(1, Round(target as real * jitter)))
  }

  /** `n` is the integer next to `x`, and of two equally near ones the even one. */
  ghost predicate Nearest(x: real, n: int) {
    && n as real - 0.5 <= x <= n as real + 0.5
    && (x == n as real - 0.5 || x == n as real + 0.5 ==> n % 2 == 0)
  }

  /** The least length lies below the target by the rounded jitter, by one token if that is
      less, and is one token if that is more than the target leaves. */
  ghost predicate IsLeastLength(lower: int, target: int, jitter: real) {
    exists step: int :: Nearest(target as real * jitter, step) && IsLower(lower, target, step)
  }

  ghost predicate IsLower(lower: int, target: int, step: int) {
    if step >= target then lower == 1
    else if step >= 1 then lower == target - step
    else lower == if target > 1 then target - 1 else 1
  }

  lemma {:induction false} LowerBoundIs(target: int, jitter: real)
    requires target > 0
    ensures IsLeastLength(LowerBound(target, jitter), target, jitter)
  {
    RoundIsNext(target as real * jitter);
    assert IsLower(LowerBound(target, jitter), target, Round(target as real * jitter));
  }

  lemma {:induction false} RoundIsNext(x: real)
    ensures Nearest(x, Round(x))
  {
  }

  lemma {:induction false} LowerBoundRange(target: int, jitter: real)
    requires target > 0 && 0.0 <= jitter < 1.0
    ensures 1 <= LowerBound(target, jitter) <= target
    ensures LowerBound(target, jitter) == target <==> target == 1
  {
  }

  function Range(lower: int, upper: int): seq<int>
    requires lower <= upper
  {
    seq(upper - lower + 1, i => lower + i)
  }

  /** Every length of the range occurs `n` times, and no other length does. */
  ghost predicate EachTimes(xs: seq<int>, lower: int, upper: int, n: nat) {
    forall v :: multiset(xs)[v] == if lower <= v <= upper then n else 0
  }

  /** No length of the range occurs more than once more often than another, at least two
      different ones occur, and nothing outside the range does. */
  ghost predicate Balanced(xs: seq<int>, lower: int, upper: int) {
    && (forall x | x in xs :: lower <= x <= upper)
    && (forall u, v | lower <= u <= upper && lower <= v <= upper :: multiset(xs)[u] <= multiset(xs)[v] + 1)
    && Varied(xs)
  }

  predicate Varied(xs: seq<int>) {
    exists i, j :: 0 <= i < j < |xs| && xs[i] != xs[j]
  }

  lemma {:induction false} RangeOnce(lower: int, upper: int)
    requires lower <= upper
    ensures EachTimes(Range(lower, upper), lower, upper, 1)
  {
    var xs := Range(lower, upper);
    forall v ensures multiset(xs)[v] == if lower <= v <= upper then 1 else 0 {
      OnceInDistinct(xs, v);
      if lower <= v <= upper {
        assert xs[v - lower] == v;
      }
    }
  }

  /** `random.shuffle`, for any draws: a permutation in place. */
  method Shuffle(xs: seq<int>, draws: nat -> nat) returns (ys: seq<int>)
    ensures multiset(ys) == multiset(xs) && |ys| == |xs|
  {
    ys := xs;
    var i := |xs| - 1;
    while i > 0
      invariant i < |xs| == |ys| && multiset(ys) == multiset(xs)
    {
      var j := draws(i) % (i + 1);
      ys := ys[i := ys[j]][j := ys[i]];
      i := i - 1;
    }
  }

  lemma {:induction false} EachTimesAppend(xs: seq<int>, ys: seq<int>, lower: int, upper: int, n: nat)
    requires EachTimes(xs, lower, upper, n) && EachTimes(ys, lower, upper, 1)
    ensures EachTimes(xs + ys, lower, upper, n + 1)
  {
    assert multiset(xs + ys) == multiset(xs) + multiset(ys);
  }

  lemma {:induction false} NoneLeft(xs: seq<int>, lower: int, upper: int)
    requires EachTimes(xs, lower, upper, 0)
    ensures xs == []
  {
    assert forall v: int :: multiset(xs)[v] == 0;
    HasElement(xs);
  }

  lemma {:induction false} HasElement(xs: seq<int>)
    ensures xs != [] ==> exists v :: v in xs && multiset(xs)[v] > 0
  {
    if xs != [] {
      var v := xs[0];
      assert v in xs && multiset(xs)[v] > 0;
    }
  }

  lemma {:induction false} InSeq(xs: seq<int>, v: int)
    requires multiset(xs)[v] > 0
    ensures v in xs
  {
    assert v in multiset(xs);
  }

  lemma {:induction false} TwoDifferent(xs: seq<int>, u: int, v: int)
    requires u in xs && v in xs && u != v
    ensures Varied(xs)
  {
    var i :| 0 <= i < |xs| && xs[i] == u;
    var j :| 0 <= j < |xs| && xs[j] == v;
    assert i < j || j < i;
  }

  /** Whole cycles and a beginning of one more, at least two lengths in all, are balanced. */
  lemma {:induction false} CutIsBalanced(full: seq<int>, cycle: seq<int>, lower: int, upper: int, n: nat, r: nat)
    requires lower < upper && r <= |cycle| && |full| + r >= 2
    requires EachTimes(full, lower, upper, n) && EachTimes(cycle, lower, upper, 1)
    ensures Balanced(full + cycle[..r], lower, upper)
  {
    var xs := full + cycle[..r];
    assert cycle == cycle[..r] + cycle[r..];
    assert multiset(cycle) == multiset(cycle[..r]) + multiset(cycle[r..]);
    assert multiset(xs) == multiset(full) + multiset(cycle[..r]);
    forall v ensures n * (if lower <= v <= upper then 1 else 0) <= multiset(xs)[v]
                     && multiset(xs)[v] <= (n + 1) * (if lower <= v <= upper then 1 else 0) {
      assert multiset(cycle[..r])[v] <= multiset(cycle)[v];
    }
    forall x | x in xs ensures lower <= x <= upper {
      assert x in multiset(xs);
    }
    if n > 0 {
      InSeq(full, lower);
      InSeq(full, upper);
      TwoDifferent(xs, lower, upper);
    } else {
      NoneLeft(full, lower, upper);
      FirstTwo(cycle, lower, upper);
      assert xs[0] == cycle[0] && xs[1] == cycle[1];
    }
  }

  lemma {:induction false} FirstTwo(cycle: seq<int>, lower: int, upper: int)
    requires EachTimes(cycle, lower, upper, 1) && |cycle| >= 2
    ensures cycle[0] != cycle[1]
  {
    if cycle[0] == cycle[1] {
      TwiceIn(cycle, 0, 1);
    }
  }

  lemma {:induction false} BalancedPermutation(xs: seq<int>, ys: seq<int>, lower: int, upper: int)
    requires Balanced(xs, lower, upper) && multiset(xs) == multiset(ys)
    ensures Balanced(ys, lower, upper)
  {
    SameElements(xs, ys);
    var i, j :| 0 <= i < j < |xs| && xs[i] != xs[j];
    TwoDifferent(ys, xs[i], xs[j]);
  }

  /** The cycles until there are enough lengths. */
  method Cycles(lower: int, upper: int, count: nat, draws: (nat, nat) -> nat)
    returns (lengths: seq<int>, ghost full: seq<int>, ghost cycle: seq<int>, ghost n: nat)
    requires lower <= upper && count > 0
    ensures lengths == full + cycle && |full| < count <= |lengths|
    ensures EachTimes(full, lower, upper, n) && EachTimes(cycle, lower, upper, 1)
  {
    var candidates := Range(lower, upper);
    RangeOnce(lower, upper);
    lengths, full, cycle, n := [], [], [], 0;
    ghost var started := false;
    var k: nat := 0;
    while |lengths| < count
      invariant lengths == full + cycle && |full| < count
      invariant EachTimes(full, lower, upper, n)
      invariant if started then EachTimes(cycle, lower, upper, 1) else lengths == []
      invariant started == (lengths != [])
      decreases count - |lengths|
    {
      ghost var before := lengths;
      var next := Shuffle(candidates, i => draws(k, i));
      if started {
        EachTimesAppend(full, cycle, lower, upper, n);
        n := n + 1;
      }
      full, cycle := before, next;
      lengths := lengths + next;
      started := true;
      k := k + 1;
    }
  }

  /** `_jittered_lengths`.  For every jitter and all shuffles, a varied trace of at least two
      requests gets exactly `count` lengths in the range, balanced over it; it raises
      exactly when the target is one token, the only target with a single length. */
  method Jittered(target: int, count: int, jitter: real, vary: bool, draws: (nat, nat) -> nat)
    returns (result: Result<seq<int>, LengthError>)
    ensures target <= 0 || count <= 0 <==> result == Failure(NotPositive)
    ensures target > 0 && count > 0 ==> (!(0.0 <= jitter < 1.0) <==> result == Failure(BadJitter))
    ensures target > 0 && count > 0 && 0.0 <= jitter < 1.0 ==>
              (vary && count > 1 && target == 1 <==> result == Failure(OneLengthOnly))
    ensures result.Success? ==> |result.value| == count
    ensures result.Success? && (!vary || count == 1) ==> forall x | x in result.value :: x == target
    ensures result.Success? && vary && count > 1 ==>
              exists lower: int :: IsLeastLength(lower, target, jitter) && Balanced(result.value, lower, target)
  {
    if target <= 0 || count <= 0 {
      return Failure(NotPositive);
    }
    if !(0.0 <= jitter < 1.0) {
      return Failure(BadJitter);
    }
    if !vary || count == 1 {
      return Success(seq(count, i => target));
    }
    var lower := LowerBound(target, jitter);
    LowerBoundRange(target, jitter);
    LowerBoundIs(target, jitter);
    hide IsLeastLength, LowerBound;
    if lower == target {
      return Failure(OneLengthOnly);
    }
    var lengths, full, cycle, n := Cycles(lower, target, count, draws);
    assert lengths[..count] == full + cycle[..count - |full|];
    CutIsBalanced(full, cycle, lower, target, n, count - |full|);
    lengths := lengths[..count];
    if !Varied(lengths) {
      // The repair of a trace with a single length is never needed.
      assert false;
    }
    var shuffled := Shuffle(lengths, i => draws(count, i));
    BalancedPermutation(lengths, shuffled, lower, target);
    return Success(shuffled);
  }
}
