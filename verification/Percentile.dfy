/** Percentiles by linear interpolation between the two nearest ordered values. */
module Percentile {
  import opened Wrappers
  import opened Sorting

  predicate AtMost(a: real, b: real) { a <= b }

  datatype PercentileError = NoValues | BadQuantile

  function Blend(a: real, b: real, weight: real): real {
    a * (1.0 - weight) + b * weight
  }

  function Lower(position: real, count: nat): nat
    requires 0.0 <= position <= (count - 1) as real
  {
    position.Floor
  }

  function Upper(position: real, count: nat): nat
    requires 0.0 <= position <= (count - 1) as real
  {
    if position.Floor + 1 <= count - 1 then position.Floor + 1 else count - 1
  }

  /** The value at a real position of an ordered sequence. */
  function ValueAt(ordered: seq<real>, position: real): real
    requires 0.0 <= position <= (|ordered| - 1) as real
  {
    var lower := Lower(position, |ordered|);
    Blend(ordered[lower], ordered[Upper(position, |ordered|)], position - lower as real)
  }

  function Position(quantile: real, count: nat): real {
    quantile * (count - 1) as real
  }

  lemma {:induction false} PositionInRange(quantile: real, count: nat)
    requires 0.0 <= quantile <= 1.0 && count > 0
    ensures 0.0 <= Position(quantile, count) <= (count - 1) as real
  {
    ScaleMonotone(0.0, quantile, (count - 1) as real);
    ScaleMonotone(quantile, 1.0, (count - 1) as real);
  }

  lemma {:induction false} PositionMonotone(q: real, q': real, count: nat)
    requires q <= q' && count > 0
    ensures Position(q, count) <= Position(q', count)
  {
    ScaleMonotone(q, q', (count - 1) as real);
  }

  lemma {:induction false} ScaleMonotone(a: real, b: real, c: real)
    requires a <= b && c >= 0.0
    ensures a * c <= b * c
  {
  }

  /** `_percentile` */
  function PercentileOf(values: seq<real>, quantile: real): Result<real, PercentileError> {
    if values == [] then Failure(NoValues)
    else if !(0.0 <= quantile <= 1.0) then Failure(BadQuantile)
    else
      PositionInRange(quantile, |values|);
      Success(ValueAt(StableSort(values, AtMost), Position(quantile, |values|)))
  }

  predicate Defined(values: seq<real>, quantile: real) {
    values != [] && 0.0 <= quantile <= 1.0
  }

  // ----- Blends -----

  lemma {:induction false} BlendBetween(a: real, b: real, weight: real)
    requires a <= b && 0.0 <= weight <= 1.0
    ensures a <= Blend(a, b, weight) <= b
  {
    assert Blend(a, b, weight) == a + (b - a) * weight;
    assert Blend(a, b, weight) == b - (b - a) * (1.0 - weight);
    ScaleMonotone(0.0, b - a, weight);
    ScaleMonotone(0.0, b - a, 1.0 - weight);
  }

  lemma {:induction false} BlendFurther(a: real, b: real, w: real, w': real)
    requires a <= b && w <= w'
    ensures Blend(a, b, w) <= Blend(a, b, w')
  {
    assert Blend(a, b, w) == a + w * (b - a);
    assert Blend(a, b, w') == a + w' * (b - a);
    ScaleMonotone(w, w', b - a);
  }

  lemma {:induction false} BlendHigher(a: real, b: real, a': real, b': real, w: real)
    requires a <= a' && b <= b' && 0.0 <= w <= 1.0
    ensures Blend(a, b, w) <= Blend(a', b', w)
  {
    var v := 1.0 - w;
    BlendIs(a, b, w, v);
    BlendIs(a', b', w, v);
    ScaleMonotone(a, a', v);
    ScaleMonotone(b, b', w);
    AddMonotone(a * v, a' * v, b * w, b' * w);
  }

  lemma {:induction false} AddMonotone(p: real, p': real, q: real, q': real)
    requires p <= p' && q <= q'
    ensures p + q <= p' + q'
  {
  }

  lemma {:induction false} BlendIs(a: real, b: real, w: real, v: real)
    requires v == 1.0 - w
    ensures Blend(a, b, w) == a * v + b * w
  {
  }

  // ----- Along an ordered sequence -----

  lemma {:induction false} ValueBetween(ordered: seq<real>, position: real)
    requires Sorted(ordered, AtMost) && 0.0 <= position <= (|ordered| - 1) as real
    ensures var lower, upper := Lower(position, |ordered|), Upper(position, |ordered|);
            && lower <= upper <= lower + 1
            && AtMost(ordered[lower], ValueAt(ordered, position))
            && AtMost(ValueAt(ordered, position), ordered[upper])
  {
    var lower, upper := Lower(position, |ordered|), Upper(position, |ordered|);
    assert lower == upper || AtMost(ordered[lower], ordered[upper]);
    BlendBetween(ordered[lower], ordered[upper], position - lower as real);
  }

  /** Further along an ordered sequence the value is no lower, also from one segment to
      another. */
  lemma {:induction false} ValueMonotone(ordered: seq<real>, p: real, p': real)
    requires Sorted(ordered, AtMost) && 0.0 <= p <= p' <= (|ordered| - 1) as real
    ensures ValueAt(ordered, p) <= ValueAt(ordered, p')
  {
    ValueBetween(ordered, p);
    ValueBetween(ordered, p');
    var n := |ordered|;
    if p.Floor == p'.Floor {
      BlendFurther(ordered[Lower(p, n)], ordered[Upper(p, n)], p - p.Floor as real, p' - p.Floor as real);
    } else {
      assert Upper(p, n) <= Lower(p', n);
      assert Upper(p, n) == Lower(p', n) || AtMost(ordered[Upper(p, n)], ordered[Lower(p', n)]);
    }
  }

  lemma {:induction false} ValueAtPlace(ordered: seq<real>, k: nat)
    requires k < |ordered|
    ensures ValueAt(ordered, k as real) == ordered[k]
  {
  }

  lemma {:induction false} FloorOfSum(k: nat, t: real)
    requires 0.0 <= t < 1.0
    ensures (k as real + t).Floor == k
  {
  }

  /** Between two neighbours the value moves on a straight line from one to the other. */
  lemma {:induction false} ValueInterpolates(ordered: seq<real>, k: nat, t: real)
    requires k + 1 < |ordered| && 0.0 <= t <= 1.0
    ensures ValueAt(ordered, k as real + t) == ordered[k] + t * (ordered[k + 1] - ordered[k])
  {
    if t == 1.0 {
      ValueAtPlace(ordered, k + 1);
      assert k as real + t == (k + 1) as real;
    } else {
      FloorOfSum(k, t);
      BlendIs(ordered[k], ordered[k + 1], t, 1.0 - t);
      StraightLine(ordered[k], ordered[k + 1], t);
    }
  }

  lemma {:induction false} StraightLine(a: real, b: real, t: real)
    ensures a * (1.0 - t) + b * t == a + t * (b - a)
  {
  }

  lemma {:induction false} RealsOrdered(s: set<real>)
    ensures Orders(AtMost, s) && Antisymmetric(AtMost, s)
  {
  }

  // ----- The percentile -----

  /** It raises exactly for no values or a quantile outside [0, 1]. */
  lemma {:induction false} PercentileDefinedIff(values: seq<real>, quantile: real)
    ensures PercentileOf(values, quantile).Success? <==> Defined(values, quantile)
    ensures PercentileOf(values, quantile) == Failure(NoValues) <==> values == []
  {
    hide ValueAt, StableSort;
  }

  /** The order of the values does not matter. */
  lemma {:induction false} PercentileOfPermutation(values: seq<real>, other: seq<real>, quantile: real)
    requires multiset(values) == multiset(other)
    ensures PercentileOf(values, quantile) == PercentileOf(other, quantile)
  {
    hide StableSort, ValueAt, Position;
    assert |values| == |multiset(values)| == |multiset(other)| == |other|;
    RealsOrdered(Elements(values));
    SortOfPermutation(values, other, AtMost);
  }

  /** It lies within the values, and is an actual one of them at 0 (the least) and at 1
      (the greatest). */
  lemma {:induction false} PercentileInRange(values: seq<real>, quantile: real)
    requires Defined(values, quantile)
    ensures IsLeast(PercentileOf(values, 0.0).value, values) && IsGreatest(PercentileOf(values, 1.0).value, values)
    ensures PercentileOf(values, 0.0).value <= PercentileOf(values, quantile).value <= PercentileOf(values, 1.0).value
  {
    hide StableSort, ValueAt, Position, Sorted, Orders, Antisymmetric;
    RealsOrdered(Elements(values));
    SortSorted(values, AtMost);
    SortedEnds(values, StableSort(values, AtMost));
    PercentileAtEnds(values);
    PercentileMonotoneInQuantile(values, 0.0, quantile);
    PercentileMonotoneInQuantile(values, quantile, 1.0);
  }

  predicate IsLeast(low: real, values: seq<real>) {
    low in values && forall v | v in values :: low <= v
  }

  predicate IsGreatest(high: real, values: seq<real>) {
    high in values && forall v | v in values :: v <= high
  }

  lemma {:induction false} PercentileAtEnds(values: seq<real>)
    requires values != []
    ensures Defined(values, 0.0) && Defined(values, 1.0)
    ensures PercentileOf(values, 0.0) == Success(StableSort(values, AtMost)[0])
    ensures PercentileOf(values, 1.0) == Success(StableSort(values, AtMost)[|values| - 1])
  {
    hide StableSort, ValueAt, Position;
    Positions(|values|);
    ValueAtPlace(StableSort(values, AtMost), 0);
    ValueAtPlace(StableSort(values, AtMost), |values| - 1);
  }

  lemma {:induction false} Positions(n: nat)
    requires n > 0
    ensures Position(0.0, n) == 0.0 && Position(1.0, n) == (n - 1) as real
  {
  }

  lemma {:induction false} SortedEnds(values: seq<real>, ordered: seq<real>)
    requires values != [] && multiset(values) == multiset(ordered) && |ordered| == |values|
    requires Sorted(ordered, AtMost)
    ensures IsLeast(ordered[0], values) && IsGreatest(ordered[|values| - 1], values)
  {
    SameElements(values, ordered);
    forall v | v in values ensures ordered[0] <= v <= ordered[|values| - 1] {
      var i :| 0 <= i < |ordered| && ordered[i] == v;
      assert i == 0 || AtMost(ordered[0], ordered[i]);
      assert i == |ordered| - 1 || AtMost(ordered[i], ordered[|ordered| - 1]);
    }
  }

  /** A higher quantile never gives a lower value: p99 is at least p50. */
  lemma {:induction false} PercentileMonotoneInQuantile(values: seq<real>, q: real, q': real)
    requires Defined(values, q) && Defined(values, q') && q <= q'
    ensures PercentileOf(values, q).value <= PercentileOf(values, q').value
  {
    hide StableSort, ValueAt, Position;
    RealsOrdered(Elements(values));
    SortSorted(values, AtMost);
    PositionInRange(q, |values|);
    PositionInRange(q', |values|);
    PositionMonotone(q, q', |values|);
    ValueMonotone(StableSort(values, AtMost), Position(q, |values|), Position(q', |values|));
  }

  // ----- Growing values -----

  ghost predicate Below(xs: seq<real>, ys: seq<real>) {
    |xs| == |ys| && forall i | 0 <= i < |xs| :: xs[i] <= ys[i]
  }

  lemma {:induction false} InsertLast(xs: seq<real>)
    requires xs != [] && Sorted(xs, AtMost)
    ensures Insert(xs[..|xs| - 1], xs[|xs| - 1], AtMost) == xs
  {
    var n := |xs| - 1;
    assert xs == xs[..n] + [xs[n]];
    assert n > 0 ==> AtMost(xs[..n][n - 1], xs[n]);
  }

  /** Inserting a lower value into lower ones stays below, wherever the two land. */
  lemma {:induction false} InsertBelow(xs: seq<real>, ys: seq<real>, x: real, y: real)
    requires Below(xs, ys) && x <= y && Sorted(xs, AtMost) && Sorted(ys, AtMost)
    ensures Below(Insert(xs, x, AtMost), Insert(ys, y, AtMost))
  {
    if xs != [] {
      hide Insert;
      var n := |xs| - 1;
      var front, front' := xs[..n], ys[..n];
      InsertCases(xs, x);
      InsertCases(ys, y);
      if AtMost(xs[n], x) && !AtMost(ys[n], y) {
        InsertBelow(front, front', xs[n], y);
        InsertLast(xs);
        BelowAppend(xs, Insert(front', y, AtMost), x, ys[n]);
      } else if !AtMost(xs[n], x) && AtMost(ys[n], y) {
        InsertBelow(front, front', x, ys[n]);
        InsertLast(ys);
        BelowAppend(Insert(front, x, AtMost), ys, xs[n], y);
      } else if !AtMost(xs[n], x) {
        InsertBelow(front, front', x, y);
        BelowAppend(Insert(front, x, AtMost), Insert(front', y, AtMost), xs[n], ys[n]);
      } else {
        BelowAppend(xs, ys, x, y);
      }
    }
  }

  lemma {:induction false} BelowAppend(xs: seq<real>, ys: seq<real>, x: real, y: real)
    requires Below(xs, ys) && x <= y
    ensures Below(xs + [x], ys + [y])
  {
  }

  lemma {:induction false} InsertCases(xs: seq<real>, x: real)
    requires xs != []
    ensures var n := |xs| - 1;
            Insert(xs, x, AtMost) == if AtMost(xs[n], x) then xs + [x] else Insert(xs[..n], x, AtMost) + [xs[n]]
  {
  }

  lemma {:induction false} SortBelow(xs: seq<real>, ys: seq<real>)
    requires Below(xs, ys)
    ensures Below(StableSort(xs, AtMost), StableSort(ys, AtMost))
  {
    if xs != [] {
      var n := |xs| - 1;
      SortBelow(xs[..n], ys[..n]);
      RealsOrdered(Elements(xs[..n]));
      RealsOrdered(Elements(ys[..n]));
      SortSorted(xs[..n], AtMost);
      SortSorted(ys[..n], AtMost);
      InsertBelow(StableSort(xs[..n], AtMost), StableSort(ys[..n], AtMost), xs[n], ys[n]);
    }
  }

  /** Raising any of the values, in whatever order they come, never lowers a percentile. */
  lemma {:induction false} PercentileMonotoneInValues(xs: seq<real>, ys: seq<real>, quantile: real)
    requires Below(xs, ys) && Defined(xs, quantile)
    ensures PercentileOf(xs, quantile).value <= PercentileOf(ys, quantile).value
  {
    hide StableSort;
    SortBelow(xs, ys);
    PositionInRange(quantile, |xs|);
    var position := Position(quantile, |xs|);
    var lower, upper := Lower(position, |xs|), Upper(position, |xs|);
    var xs', ys' := StableSort(xs, AtMost), StableSort(ys, AtMost);
    BlendHigher(xs'[lower], xs'[upper], ys'[lower], ys'[upper], position - lower as real);
  }

  /** The percentile itself, in any ordering of the values: at the quantile that lies the part
      `t` of the way from place `k` to the next, it lies that part of the way from the value
      there to the next. */
  lemma {:induction false} PercentileInterpolates(values: seq<real>, ordered: seq<real>, quantile: real, k: nat, t: real)
    requires multiset(values) == multiset(ordered) && forall i, j | 0 <= i < j < |ordered| :: ordered[i] <= ordered[j]
    requires k + 1 < |ordered| && 0.0 <= t <= 1.0 && quantile * (|ordered| - 1) as real == k as real + t
    requires 0.0 <= quantile <= 1.0
    ensures PercentileOf(values, quantile) == Success(ordered[k] + t * (ordered[k + 1] - ordered[k]))
  {
    hide StableSort, ValueAt;
    assert |values| == |multiset(values)| == |multiset(ordered)| == |ordered|;
    IsSort(values, ordered);
    assert Position(quantile, |values|) == k as real + t;
    ValueInterpolates(ordered, k, t);
    assert values != [];
  }

  lemma {:induction false} PercentileOfOne(value: real, quantile: real)
    requires 0.0 <= quantile <= 1.0
    ensures PercentileOf([value], quantile) == Success(value)
  {
    assert [value][..0] == [];
    assert StableSort([value], AtMost) == [value];
    assert Position(quantile, 1) == 0.0;
    ValueAtPlace([value], 0);
  }

  lemma {:induction false} IsSort(values: seq<real>, ordered: seq<real>)
    requires multiset(values) == multiset(ordered) && forall i, j | 0 <= i < j < |ordered| :: ordered[i] <= ordered[j]
    ensures StableSort(values, AtMost) == ordered
  {
    forall i, j | 0 <= i < j < |ordered| ensures AtMost(ordered[i], ordered[j]) {
    }
    RealsOrdered(Elements(values));
    SortOfSorted(ordered, AtMost);
    SortOfPermutation(values, ordered, AtMost);
  }
}
