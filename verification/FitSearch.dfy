/** The RULER length search: doubling, then bisection, over a measure that need not
    be monotone. */
module FitSearch {
  import opened Wrappers

  function Pow2(n: nat): (p: nat)
    ensures p > n
  {
    if n == 0 then 1 else 2 * Pow2(n - 1)
  }

  /** The integer part of the binary logarithm. */
  function Log2(n: nat): nat
    requires n > 0
  {
    if n == 1 then 0 else 1 + Log2(n / 2)
  }

  lemma {:induction false} Log2Is(n: nat)
    requires n > 0
    ensures Pow2(Log2(n)) <= n < Pow2(Log2(n) + 1)
  {
    if n > 1 {
      Log2Is(n / 2);
    }
  }

  lemma {:induction false} Log2AtLeast(n: nat, j: nat)
    requires n >= Pow2(j)
    ensures Log2(n) >= j
    decreases j
  {
    if j > 0 {
      Log2AtLeast(n / 2, j - 1);
    }
  }

  /** One search problem.  `build` and `countTokens` are deterministic: the sample
      seed is fixed before the search. */
  datatype Problem<!P> = Problem(build: nat -> P, countTokens: P -> int, tokensToGenerate: int, target: int) {
    function Length(count: nat): int {
      countTokens(build(count)) + tokensToGenerate
    }

    predicate Fits(count: nat) {
      Length(count) <= target
    }
  }

  /** Some power of two that the doubling loop tries is too long. */
  ghost predicate DoublingEnds<P>(p: Problem<P>) {
    exists j: nat :: j > 0 && !p.Fits(Pow2(j))
  }

  method Double<P>(p: Problem<P>) returns (lower: nat, upper: nat, ghost j: nat)
    requires p.Fits(1) && DoublingEnds(p)
    ensures lower == Pow2(j) && upper == Pow2(j + 1)
    ensures p.Fits(lower) && !p.Fits(upper)
    ensures forall i | 0 <= i <= j :: p.Fits(Pow2(i))
  {
    ghost var end: nat :| end > 0 && !p.Fits(Pow2(end));
    lower := 1;
    upper := 2;
    j := 0;
    var upperLength := p.Length(upper);
    while upperLength <= p.target
      invariant lower == Pow2(j) && upper == Pow2(j + 1)
      invariant upperLength == p.Length(upper)
      invariant forall i | 0 <= i <= j :: p.Fits(Pow2(i))
      invariant j < end
      decreases end - j
    {
      lower := upper;
      upper := upper * 2;
      upperLength := p.Length(upper);
      j := j + 1;
    }
  }

  // ----- Whether the doubling ends -----

  /** The guard of the doubling loop, at the given upper count, fails within `fuel` turns. */
  predicate EndsWithin<P>(p: Problem<P>, upper: nat, fuel: nat)
    decreases fuel
  {
    !p.Fits(upper) || (fuel > 0 && EndsWithin(p, upper * 2, fuel - 1))
  }

  /** The doubling loop, cut off after `fuel` turns. */
  method DoubleFor<P>(p: Problem<P>, fuel: nat) returns (lower: nat, upper: nat, running: bool, ghost turns: nat)
    ensures lower == Pow2(turns) && upper == Pow2(turns + 1) && turns <= fuel
    ensures running <==> !EndsWithin(p, 2, fuel)
    ensures if running then turns == fuel && p.Fits(upper) else !p.Fits(upper)
    ensures forall i | 0 < i <= turns :: p.Fits(Pow2(i))
  {
    lower, upper := 1, 2;
    turns := 0;
    var upperLength := p.Length(upper);
    var left := fuel;
    while upperLength <= p.target && left > 0
      invariant lower == Pow2(turns) && upper == Pow2(turns + 1) && turns + left == fuel
      invariant upperLength == p.Length(upper)
      invariant forall i | 0 < i <= turns :: p.Fits(Pow2(i))
      invariant EndsWithin(p, 2, fuel) <==> EndsWithin(p, upper, left)
      decreases left
    {
      lower := upper;
      upper := upper * 2;
      upperLength := p.Length(upper);
      turns, left := turns + 1, left - 1;
    }
    running := upperLength <= p.target;
  }

  lemma {:induction false} EndsWithinIff<P>(p: Problem<P>, j: nat, fuel: nat)
    ensures EndsWithin(p, Pow2(j), fuel) <==> exists i: nat :: j <= i <= j + fuel && !p.Fits(Pow2(i))
    decreases fuel
  {
    if fuel > 0 {
      EndsWithinIff(p, j + 1, fuel - 1);
      assert Pow2(j + 1) == Pow2(j) * 2;
    }
    if !p.Fits(Pow2(j)) {
      assert j <= j <= j + fuel;
    }
  }

  lemma {:induction false} EndsEarly<P>(p: Problem<P>, j: nat)
    requires j > 0 && !p.Fits(Pow2(j))
    ensures EndsWithin(p, 2, j - 1)
  {
    assert Pow2(1) == 2;
    EndsWithinIff(p, 1, j - 1);
    var last := 1 + (j - 1);
    assert last == j && !p.Fits(Pow2(last));
  }

  /** The doubling loop ends, after some number of turns, if and only if some power of two it
      tries is too long; otherwise it is still running after any number of turns. */
  lemma {:induction false} DoublingEndsIff<P>(p: Problem<P>)
    ensures DoublingEnds(p) <==> exists fuel: nat :: EndsWithin(p, 2, fuel)
  {
    assert Pow2(1) == 2;
    hide EndsWithin, Pow2;
    if DoublingEnds(p) {
      var j: nat :| j > 0 && !p.Fits(Pow2(j));
      EndsEarly(p, j);
    }
    if fuel: nat :| EndsWithin(p, 2, fuel) {
      EndsWithinIff(p, 1, fuel);
    }
  }

  /** A measure that no repetition makes longer: the first count fits, and the loop runs on. */
  lemma {:induction false} ConstantMeasureNeverEnds(fuel: nat)
    ensures var p: Problem<int> := Problem(count => 0, payload => 0, 0, 0);
            p.Fits(1) && !EndsWithin(p, 2, fuel)
  {
    var p: Problem<int> := Problem(count => 0, payload => 0, 0, 0);
    assert Pow2(1) == 2;
    EndsWithinIff(p, 1, fuel);
  }

  // ----- The search -----

  /** The bisection between a count that fits and one that does not. */
  method Bisect<P>(p: Problem<P>, first: nat, last: nat, minimumPayload: P, ghost budget: nat)
    returns (payload: P, length: int, ghost count: nat, ghost calls: nat)
    requires 0 < first < last && p.Fits(first) && !p.Fits(last)
    requires minimumPayload == p.build(1)
    requires last - first + 1 < Pow2(budget)
    ensures first <= count < last
    ensures payload == p.build(count) && length == p.Length(count)
    ensures p.Fits(count) && !p.Fits(count + 1)
    ensures calls <= budget
  {
    var lower, upper := first, last;
    payload, length := minimumPayload, p.countTokens(minimumPayload) + p.tokensToGenerate;
    count, calls := 1, 0;
    while lower <= upper
      invariant first <= lower <= upper + 1 <= last + 1
      invariant payload == p.build(count) && length == p.Length(count)
      invariant if lower == first then count == 1 else count == lower - 1 && p.Fits(count)
      invariant upper == last || !p.Fits(upper + 1)
      invariant calls <= budget && upper - lower + 1 < Pow2(budget - calls)
    {
      var middle := (lower + upper) / 2;
      var candidate := p.build(middle);
      var measured := p.countTokens(candidate) + p.tokensToGenerate;
      if measured <= p.target {
        payload, length, count := candidate, measured, middle;
        lower := middle + 1;
      } else {
        upper := middle - 1;
      }
      calls := calls + 1;
    }
  }

  /** `_fit_repetition_count`.  The count found fits and the next one does not,
      whatever the shape of the measure; an error means that not even one repetition
      fits.  `calls` counts the calls of `build`. */
  method FitRepetitionCount<P>(p: Problem<P>) returns (r: Result<(P, int), int>, ghost count: nat, ghost calls: nat)
    requires p.Fits(1) ==> DoublingEnds(p)
    ensures r.Failure? <==> !p.Fits(1)
    ensures r.Failure? ==> r.error == p.Length(1)
    ensures r.Success? ==> count > 0 && r.value == (p.build(count), p.Length(count))
    ensures r.Success? ==> p.Fits(count) && !p.Fits(count + 1)
    ensures r.Success? ==>
              && r.value.1 == p.countTokens(p.build(count)) + p.tokensToGenerate <= p.target
              && p.target < p.countTokens(p.build(count + 1)) + p.tokensToGenerate
    ensures r.Failure? <==> p.target < p.countTokens(p.build(1)) + p.tokensToGenerate
    ensures r.Success? ==> calls <= 2 * Log2(count) + 4
  {
    var minimumPayload := p.build(1);
    var minimumLength := p.countTokens(minimumPayload) + p.tokensToGenerate;
    if minimumLength > p.target {
      return Failure(minimumLength), 1, 1;
    }
    var lower, upper, j := Double(p);
    ghost var budget := if j == 0 then 2 else j + 1;
    assert upper - lower + 1 < Pow2(budget) by {
      assert Pow2(2) == 4 && Pow2(1) == 2;
      assert j > 0 ==> Pow2(j) > 1;
    }
    var payload, length;
    payload, length, count, calls := Bisect(p, lower, upper, minimumPayload, budget);
    calls := calls + 1 + (j + 1);
    Log2AtLeast(count, j);
    return Success((payload, length)), count, calls;
  }

  ghost predicate Monotone<P>(p: Problem<P>) {
    forall a: nat, b: nat | 0 < a <= b :: p.Length(a) <= p.Length(b)
  }

  /** For a monotone measure that count is the largest that fits. */
  lemma {:induction false} BoundaryIsMaximum<P>(p: Problem<P>, count: nat, other: nat)
    requires Monotone(p) && count > 0 && p.Fits(count) && !p.Fits(count + 1)
    ensures other > 0 ==> (p.Fits(other) <==> other <= count)
  {
    if other > count {
      assert p.Length(count + 1) <= p.Length(other);
    }
  }
}
