/** The unbiased pass@k estimator, over the reals, and what it estimates. */
module PassAtK {

  // ----- The estimator -----

  /** One element of `1.0 - k / np.arange(...)`. */
  function Factor(i: nat, k: nat): real
    requires i > 0
  {
    1.0 - k as real / i as real
  }

  /** `np.prod(1.0 - k / np.arange(low + 1, high + 1))` */
  function Product(low: nat, high: nat, k: nat): real
    requires low <= high
  {
    if low == high then 1.0
    else Product(low, high - 1, k) * Factor(high, k)
  }

  /** `estimator(n, c, k)` for `n` samples of which `c` are correct. */
  function Estimator(n: nat, c: nat, k: nat): real
    requires c <= n
  {
    if n - c < k then 1.0 else 1.0 - Product(n - c, n, k)
  }

  // ----- Binomial coefficients -----

  function Choose(n: nat, k: nat): nat {
    if k == 0 then 1
    else if n == 0 then 0
    else Choose(n - 1, k - 1) + Choose(n - 1, k)
  }

  lemma {:induction false} ChooseBounds(n: nat, k: nat)
    ensures Choose(n, k) > 0 <==> k <= n
  {
    if k > 0 && n > 0 {
      ChooseBounds(n - 1, k - 1);
      ChooseBounds(n - 1, k);
    }
  }

  lemma {:induction false} AbsorptionStep(n: int, k: int, p: int, a: int, b: int, x: int)
    requires b == p + a && (k - 1) * b == (n - 1) * p && k * x == (n - 1) * a
    ensures k * (b + x) == n * b
  {
    assert k * (b + x) == (k - 1) * b + b + k * x;
    assert (n - 1) * p + (n - 1) * a == (n - 1) * b;
  }

  lemma {:induction false} Absorption(n: nat, k: nat)
    requires n > 0 && k > 0
    ensures k * Choose(n, k) == n * Choose(n - 1, k - 1)
  {
    if n == 1 {
      ChooseBounds(0, k);
      ChooseBounds(0, k - 1);
    } else {
      Absorption(n - 1, k);
      if k > 1 {
        Absorption(n - 1, k - 1);
        AbsorptionStep(n, k, Choose(n - 2, k - 2), Choose(n - 2, k - 1), Choose(n - 1, k - 1), Choose(n - 1, k));
      }
    }
  }

  /** Removing one sample from the pool scales the number of draws by `(n - k) / n`. */
  lemma {:induction false} ChooseStep(n: nat, k: nat)
    requires n > 0
    ensures n * Choose(n - 1, k) == (n - k) * Choose(n, k)
  {
    if k > 0 {
      Absorption(n, k);
    }
  }

  lemma {:induction false} CancelFactor(a: real, b: real, x: real)
    requires x != 0.0 && a * x == b * x
    ensures a == b
  {
  }

  lemma {:induction false} DivideBack(a: real, x: real)
    requires x != 0.0
    ensures a / x * x == a
  {
  }

  lemma {:induction false} ScaleBy(r: real, m: real, k: real, x: real, y: real)
    requires m != 0.0 && r * m == k && m * y == (m - k) * x
    ensures (1.0 - r) * x == y
  {
    calc {
      ((1.0 - r) * x) * m;
      (m - r * m) * x;
      y * m;
    }
    CancelFactor((1.0 - r) * x, y, m);
  }

  lemma {:induction false} IntegersAsReals(n: nat, k: int, x: nat, y: nat)
    requires n * y == (n - k) * x
    ensures n as real * y as real == (n as real - k as real) * x as real
  {
    assert (n * y) as real == n as real * y as real;
    assert ((n - k) * x) as real == (n - k) as real * x as real;
  }

  lemma {:induction false} ScaleStep(n: nat, k: nat)
    requires n > 0
    ensures Factor(n, k) * Choose(n, k) as real == Choose(n - 1, k) as real
  {
    ChooseStep(n, k);
    IntegersAsReals(n, k, Choose(n, k), Choose(n - 1, k));
    DivideBack(k as real, n as real);
    ScaleBy(k as real / n as real, n as real, k as real, Choose(n, k) as real, Choose(n - 1, k) as real);
  }

  lemma {:induction false} Chain(r: real, p: real, q: real, x: real, y: real, z: real)
    requires r == p * q && q * x == y && p * y == z
    ensures r * x == z
  {
    assert (p * q) * x == p * (q * x);
  }

  lemma {:induction false} ProductStep(low: nat, high: nat, k: nat)
    requires low < high
    ensures Product(low, high, k) == Product(low, high - 1, k) * Factor(high, k)
  {
  }

  lemma {:induction false} TelescopeStep(low: nat, high: nat, k: nat)
    requires low < high
    requires Product(low, high - 1, k) * Choose(high - 1, k) as real == Choose(low, k) as real
    ensures Product(low, high, k) * Choose(high, k) as real == Choose(low, k) as real
  {
    hide *;
    ScaleStep(high, k);
    ProductStep(low, high, k);
    Chain(Product(low, high, k), Product(low, high - 1, k), Factor(high, k),
          Choose(high, k) as real, Choose(high - 1, k) as real, Choose(low, k) as real);
  }

  lemma {:induction false} TelescopeStart(low: nat, k: nat)
    ensures Product(low, low, k) * Choose(low, k) as real == Choose(low, k) as real
  {
  }

  /** The product telescopes to a ratio of binomial coefficients. */
  lemma {:induction false} ProductTelescopes(low: nat, high: nat, k: nat)
    requires low <= high
    ensures Product(low, high, k) * Choose(high, k) as real == Choose(low, k) as real
  {
    hide *;
    if low == high {
      TelescopeStart(low, k);
    } else {
      ProductTelescopes(low, high - 1, k);
      TelescopeStep(low, high, k);
    }
  }

  /** The early return and the product form together are `1 - C(n-c, k) / C(n, k)`,
      here without the division so that `k > n` is covered too. */
  lemma {:induction false} EstimatorIsBinomial(n: nat, c: nat, k: nat)
    requires c <= n && k > 0
    ensures Estimator(n, c, k) * Choose(n, k) as real == Choose(n, k) as real - Choose(n - c, k) as real
    ensures k > n ==> Estimator(n, c, k) == 1.0
  {
    if n - c < k {
      ChooseBounds(n - c, k);
    } else {
      ProductTelescopes(n - c, n, k);
      var p, x := Product(n - c, n, k), Choose(n, k) as real;
      assert (1.0 - p) * x == x - p * x;
    }
  }

  lemma {:induction false} ComplementOf(e: real, x: real, y: real)
    requires x != 0.0 && e * x == x - y
    ensures e == 1.0 - y / x
  {
    assert (1.0 - e) * x == y;
    DivideBack(y, x);
    CancelFactor(1.0 - e, y / x, x);
  }

  lemma {:induction false} EstimatorRatio(n: nat, c: nat, k: nat)
    requires c <= n && 0 < k <= n
    ensures Choose(n, k) > 0
    ensures Estimator(n, c, k) == 1.0 - Choose(n - c, k) as real / Choose(n, k) as real
  {
    hide *;
    ChooseBounds(n, k);
    EstimatorIsBinomial(n, c, k);
    ComplementOf(Estimator(n, c, k), Choose(n, k) as real, Choose(n - c, k) as real);
  }

  lemma {:induction false} ChooseMonotone(m: nat, n: nat, k: nat)
    requires m <= n
    ensures Choose(m, k) <= Choose(n, k)
  {
    if m < n {
      ChooseMonotone(m, n - 1, k);
      if k > 0 {
        ChooseBounds(n - 1, k - 1);
      }
    }
  }

  lemma {:induction false} DivideMonotone(a: real, b: real, x: real)
    requires 0.0 <= a <= b && x > 0.0
    ensures 0.0 <= a / x <= b / x
    ensures x / x == 1.0
  {
    DivideBack(a, x);
    DivideBack(b, x);
  }

  /** The estimate is a probability, and grows with the number of correct samples. */
  lemma {:induction false} EstimatorRange(n: nat, c: nat, d: nat, k: nat)
    requires c <= d <= n && k > 0
    ensures 0.0 <= Estimator(n, c, k) <= Estimator(n, d, k) <= 1.0
  {
    if k <= n {
      EstimatorRatio(n, c, k);
      EstimatorRatio(n, d, k);
      ChooseMonotone(n - d, n - c, k);
      ChooseMonotone(n - c, n, k);
      var x := Choose(n, k) as real;
      DivideMonotone(Choose(n - d, k) as real, Choose(n - c, k) as real, x);
      DivideMonotone(Choose(n - c, k) as real, x, x);
    } else {
      EstimatorIsBinomial(n, c, k);
      EstimatorIsBinomial(n, d, k);
    }
  }

  lemma {:induction false} QuotientOf(e: real, p: real, x: real)
    requires x != 0.0 && e * x == p
    ensures e == p / x
  {
    DivideBack(p, x);
    CancelFactor(e, p / x, x);
  }

  lemma {:induction false} ChooseOne(n: nat)
    ensures Choose(n, 1) == n
  {
    if n > 0 {
      ChooseOne(n - 1);
    }
  }

  /** pass@1 is the fraction of correct samples. */
  lemma {:induction false} PassAtOne(n: nat, c: nat)
    requires c <= n && n > 0
    ensures Estimator(n, c, 1) == c as real / n as real
  {
    hide *;
    EstimatorIsBinomial(n, c, 1);
    ChooseOne(n);
    ChooseOne(n - c);
    QuotientOf(Estimator(n, c, 1), c as real, n as real);
  }

  // ----- What is estimated -----

  function Samples(n: nat): (r: set<nat>)
    ensures forall x: nat :: x in r <==> x < n
  {
    if n == 0 then {} else Samples(n - 1) + {n - 1}
  }

  /** All draws of `k` among the samples `0, ..., n - 1`. */
  ghost function Draws(n: nat, k: nat): set<set<nat>> {
    set s | s <= Samples(n) && |s| == k
  }

  /** The draws that contain a correct sample, the correct ones being the last `c`. */
  ghost function PassingDraws(n: nat, c: nat, k: nat): set<set<nat>>
    requires c <= n
  {
    set s | s in Draws(n, k) && !(s <= Samples(n - c))
  }

  ghost function With(s: set<nat>, m: nat): set<nat> {
    s + {m}
  }

  ghost function AddToAll(ss: set<set<nat>>, m: nat): set<set<nat>> {
    set s | s in ss :: With(s, m)
  }

  lemma {:induction false} AddToAllCount(ss: set<set<nat>>, m: nat)
    requires forall s | s in ss :: m !in s
    ensures |AddToAll(ss, m)| == |ss|
    decreases |ss|
  {
    if ss != {} {
      var s :| s in ss;
      var rest := ss - {s};
      AddToAllCount(rest, m);
      assert forall t | t in rest :: With(t, m) - {m} == t;
      assert With(s, m) - {m} == s;
      assert With(s, m) !in AddToAll(rest, m);
      assert AddToAll(ss, m) == AddToAll(rest, m) + {With(s, m)};
    }
  }

  lemma {:induction false} DrawWithLast(m: nat, k: nat, s: set<nat>)
    requires s in Draws(m + 1, k + 1) && m in s
    ensures s in AddToAll(Draws(m, k), m)
  {
    assert s - {m} in Draws(m, k);
    assert s == With(s - {m}, m);
  }

  lemma {:induction false} DrawExtended(m: nat, k: nat, s: set<nat>)
    requires s in AddToAll(Draws(m, k), m)
    ensures s in Draws(m + 1, k + 1)
  {
    var t :| t in Draws(m, k) && s == With(t, m);
    assert m !in t;
  }

  /** A draw either leaves out the last sample or adds it to a smaller draw. */
  lemma {:induction false} DrawsSplit(m: nat, k: nat)
    ensures Draws(m + 1, k + 1) == Draws(m, k + 1) + AddToAll(Draws(m, k), m)
  {
    forall s ensures s in Draws(m + 1, k + 1) <==> s in Draws(m, k + 1) || s in AddToAll(Draws(m, k), m) {
      if s in Draws(m + 1, k + 1) && m in s {
        DrawWithLast(m, k, s);
      }
      if s in AddToAll(Draws(m, k), m) {
        DrawExtended(m, k, s);
      }
    }
  }

  lemma {:induction false} DisjointCount<T>(a: set<T>, b: set<T>)
    requires a !! b
    ensures |a + b| == |a| + |b|
  {
  }

  lemma {:induction false} GrownCount(n: nat, k: nat)
    ensures |Draws(n, k + 1) + AddToAll(Draws(n, k), n)| == |Draws(n, k + 1)| + |Draws(n, k)|
  {
    AddToAllCount(Draws(n, k), n);
    DisjointCount(Draws(n, k + 1), AddToAll(Draws(n, k), n));
  }

  lemma {:induction false} DrawsOfNone(n: nat)
    ensures |Draws(n, 0)| == Choose(n, 0)
  {
    assert Draws(n, 0) == {{}};
  }

  lemma {:induction false} DrawsFromNone(k: nat)
    requires k > 0
    ensures |Draws(0, k)| == Choose(0, k)
  {
    assert Draws(0, k) == {};
  }

  lemma {:induction false} DrawsGrow(m: nat, k: nat)
    ensures |Draws(m + 1, k + 1)| == |Draws(m, k + 1)| + |Draws(m, k)|
  {
    hide *;
    DrawsSplit(m, k);
    GrownCount(m, k);
  }

  lemma {:induction false} ChooseGrow(m: nat, k: nat)
    ensures Choose(m + 1, k + 1) == Choose(m, k + 1) + Choose(m, k)
  {
  }

  lemma {:induction false} DrawsCount(n: nat, k: nat)
    ensures |Draws(n, k)| == Choose(n, k)
  {
    hide *;
    if k == 0 {
      DrawsOfNone(n);
    } else if n == 0 {
      DrawsFromNone(k);
    } else {
      DrawsCount(n - 1, k);
      DrawsCount(n - 1, k - 1);
      DrawsGrow(n - 1, k - 1);
      ChooseGrow(n - 1, k - 1);
    }
  }

  lemma {:induction false} PassingCount(n: nat, c: nat, k: nat)
    requires c <= n
    ensures |PassingDraws(n, c, k)| == Choose(n, k) - Choose(n - c, k)
  {
    DrawsCount(n, k);
    DrawsCount(n - c, k);
    assert Samples(n - c) <= Samples(n);
    assert Draws(n, k) == PassingDraws(n, c, k) + Draws(n - c, k);
    DisjointCount(PassingDraws(n, c, k), Draws(n - c, k));
  }

  /** pass@k is the probability that `k` samples drawn without replacement contain a
      correct one: the number of such draws over the number of all draws. */
  lemma {:induction false} EstimatorIsProbability(n: nat, c: nat, k: nat)
    requires c <= n && 0 < k <= n
    ensures |Draws(n, k)| > 0
    ensures Estimator(n, c, k) == |PassingDraws(n, c, k)| as real / |Draws(n, k)| as real
  {
    hide *;
    DrawsCount(n, k);
    PassingCount(n, c, k);
    ChooseBounds(n, k);
    EstimatorIsBinomial(n, c, k);
    QuotientOf(Estimator(n, c, k), |PassingDraws(n, c, k)| as real, |Draws(n, k)| as real);
  }
}
