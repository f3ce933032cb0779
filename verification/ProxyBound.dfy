/** For which output lengths the concurrency proxy bounds the observed decode throughput. */
module ProxyBound {
  import opened Throughput
  import opened Wrappers

  // ----- Figures of the lengths -----

  /** Tokens after the first, over all requests. */
  function Steps(lengths: seq<int>): int {
    if lengths == [] then 0 else Steps(lengths[..|lengths| - 1]) + lengths[|lengths| - 1] - 1
  }

  /** Requests that decode at all. */
  function Decoding(lengths: seq<int>): nat {
    if lengths == [] then 0
    else Decoding(lengths[..|lengths| - 1]) + if lengths[|lengths| - 1] > 1 then 1 else 0
  }

  function Inverse(length: int): real {
    if length > 1 then 1.0 / (length - 1) as real else 0.0
  }

  /** The reciprocals of their tokens after the first. */
  function InverseSteps(lengths: seq<int>): real {
    if lengths == [] then 0.0 else InverseSteps(lengths[..|lengths| - 1]) + Inverse(lengths[|lengths| - 1])
  }

  predicate Balanced(lengths: seq<int>) {
    Steps(lengths) as real * InverseSteps(lengths) <= |lengths| as real * Decoding(lengths) as real
  }

  /** A possible timeline of a batch with these lengths. */
  ghost predicate Timeline(rs: seq<Request>, lengths: seq<int>) {
    && |rs| == |lengths|
    && forall i | 0 <= i < |rs| :: Possible(rs[i]) && rs[i].generated == lengths[i]
  }

  /** Whenever the batch has an observed decode throughput, it has a proxy at least as high. */
  ghost predicate BelowProxy(ids: seq<int>, rs: seq<Request>, inputTokens: int)
    requires rs != [] && |ids| == |rs|
  {
    var m := MetricsOf(ids, rs);
    var proxy := ConcurrencyProxy(|rs|, m.tpotMs);
    var rates := PhaseThroughput(inputTokens, TotalGenerated(rs), |rs|, m.prefillS, m.decodeS);
    rates.Success? && rates.value.decodeTps.Some? ==>
      proxy.Success? && proxy.value.Some? && rates.value.decodeTps.value <= proxy.value.value
  }

  // ----- Arithmetic -----

  lemma {:induction false} Times(a: real, b: real, c: real)
    requires a <= b && c >= 0.0
    ensures a * c <= b * c
  {
  }

  lemma {:induction false} TimesIff(a: real, b: real, c: real)
    requires c > 0.0
    ensures a <= b <==> a * c <= b * c
  {
    if a <= b {
      Times(a, b, c);
    }
    if a * c <= b * c {
      Cancel(a, b, c);
    }
  }

  /** The bound compares the total time per token with what the lengths allow. */
  lemma {:induction false} BoundIff(k: real, w: real, n: real, m: real, t: real)
    requires k > 0.0 && w > 0.0 && n > 0.0 && m > 0.0 && t > 0.0
    ensures t / m > 0.0
    ensures k / w <= n * 1000.0 / (t / m) <==> k * t <= n * m * 1000.0 * w
  {
    hide *;
    var obs, mean := k / w, t / m;
    Positive(t, m);
    var proxy := n * 1000.0 / mean;
    Quotient(k, w);
    Quotient(t, m);
    Quotient(n * 1000.0, mean);
    TimesIff(obs, proxy, t);
    Regroup(proxy, mean, m, t, n);
    TimesIff(obs * t, n * m * 1000.0, w);
    Swap(obs, t, w, k);
  }

  lemma {:induction false} Regroup(proxy: real, mean: real, m: real, t: real, n: real)
    requires proxy * mean == n * 1000.0 && mean * m == t
    ensures proxy * t == n * m * 1000.0
  {
    assert proxy * t == proxy * mean * m;
  }

  lemma {:induction false} Swap(obs: real, t: real, w: real, k: real)
    requires obs * w == k
    ensures obs * t * w == k * t
  {
  }

  /** Times per token as large as the window allows. */
  lemma {:induction false} LargestTotal(k: real, w: real, n: real, m: real, t: real, s: real)
    requires k > 0.0 && w > 0.0 && t <= 1000.0 * w * s
    ensures k * s <= n * m ==> k * t <= n * m * 1000.0 * w
    ensures t == 1000.0 * w * s && k * t <= n * m * 1000.0 * w ==> k * s <= n * m
  {
    hide *;
    Times(t, 1000.0 * w * s, k);
    TimesIff(k * s, n * m, 1000.0 * w);
    Shuffle(k, w, s, n * m);
  }

  lemma {:induction false} Shuffle(k: real, w: real, s: real, p: real)
    ensures k * s * (1000.0 * w) == 1000.0 * w * s * k
    ensures p * (1000.0 * w) == p * 1000.0 * w
  {
  }

  // ----- The times per token of a timeline -----

  lemma {:induction false} InversePositive(length: int)
    ensures Inverse(length) >= 0.0
    ensures length > 1 ==> Inverse(length) > 0.0
  {
  }

  lemma {:induction false} TpotIs(r: Request)
    requires r.generated > 1
    ensures Tpot(r) == 1000.0 * DecodeS(r) * Inverse(r.generated)
  {
    var k := (r.generated - 1) as real;
    Quotient(DecodeS(r) * 1000.0, k);
    Quotient(1.0, k);
    SameProduct(Tpot(r), 1000.0 * DecodeS(r), 1.0 / k, k);
  }

  lemma {:induction false} SameProduct(x: real, a: real, b: real, k: real)
    requires k > 0.0 && x * k == a && b * k == 1.0
    ensures x == a * b
  {
    assert a * b * k == a * (b * k) == a;
    Cancel(x, a * b, k);
    Cancel(a * b, x, k);
  }

  lemma {:induction false} TpotWithin(r: Request, w: real)
    requires r.generated > 1 && DecodeS(r) <= w
    ensures Tpot(r) <= 1000.0 * w * Inverse(r.generated)
    ensures DecodeS(r) == w ==> Tpot(r) == 1000.0 * w * Inverse(r.generated)
  {
    hide *;
    TpotIs(r);
    InversePositive(r.generated);
    Times(1000.0 * DecodeS(r), 1000.0 * w, Inverse(r.generated));
  }

  /** What a timeline within a window of length `w` adds up to. */
  ghost predicate Totals(rs: seq<Request>, lengths: seq<int>, w: real) {
    && TotalGenerated(rs) == Steps(lengths) + |lengths|
    && |Tpots(rs)| == Decoding(lengths)
    && Sum(Tpots(rs)) <= 1000.0 * w * InverseSteps(lengths)
    && (AllFill(rs, w) ==> Sum(Tpots(rs)) == 1000.0 * w * InverseSteps(lengths))
    && 0 <= Steps(lengths) && Decoding(lengths) <= Steps(lengths)
    && (Decoding(lengths) == 0 <==> Steps(lengths) == 0)
    && (Decoding(lengths) > 0 ==> Sum(Tpots(rs)) > 0.0)
    && Sum(Tpots(rs)) >= 0.0
  }

  lemma {:induction false} TimelineTotals(rs: seq<Request>, lengths: seq<int>, w: real)
    requires Timeline(rs, lengths) && AllWithin(rs, w)
    ensures Totals(rs, lengths, w)
  {
    if rs != [] {
      var n := |rs| - 1;
      TimelineTotals(rs[..n], lengths[..n], w);
      assert Possible(rs[n]);
      TotalsGrow(rs, lengths, w);
    } else {
      assert lengths == [];
    }
  }

  lemma {:induction false} FrontFills(rs: seq<Request>, w: real)
    requires rs != [] && AllFill(rs, w)
    ensures AllFill(rs[..|rs| - 1], w) && DecodeS(rs[|rs| - 1]) == w
  {
  }

  lemma {:induction false} TotalsGrow(rs: seq<Request>, lengths: seq<int>, w: real)
    requires rs != [] && |rs| == |lengths| && rs[|rs| - 1].generated == lengths[|lengths| - 1]
    requires Possible(rs[|rs| - 1]) && DecodeS(rs[|rs| - 1]) <= w
    requires Totals(rs[..|rs| - 1], lengths[..|lengths| - 1], w)
    ensures Totals(rs, lengths, w)
  {
    hide Tpot, Inverse, AllFill, Sum, Tpots, TotalGenerated, DecodeS, Complaint, Possible;
    var n := |rs| - 1;
    TotalsStep(rs);
    AtLeastOne(rs[n]);
    Distributes(1000.0 * w, InverseSteps(lengths[..n]), Inverse(lengths[n]));
    if lengths[n] > 1 {
      TpotWithin(rs[n], w);
      TpotPositive(rs[n]);
    } else {
      NoTpot(rs);
      assert Inverse(lengths[n]) == 0.0 by { NoInverse(lengths[n]); }
    }
    if AllFill(rs, w) {
      FrontFills(rs, w);
    }
  }

  lemma {:induction false} NoInverse(length: int)
    requires length <= 1
    ensures Inverse(length) == 0.0
  {
  }

  lemma {:induction false} NoTpot(rs: seq<Request>)
    requires rs != [] && rs[|rs| - 1].generated <= 1
    ensures Tpots(rs) == Tpots(rs[..|rs| - 1])
  {
  }

  lemma {:induction false} AtLeastOne(r: Request)
    requires Possible(r)
    ensures r.generated >= 1
  {
  }

  lemma {:induction false} Distributes(c: real, a: real, b: real)
    ensures c * (a + b) == c * a + c * b
  {
  }

  // ----- The bound for one timeline -----

  lemma {:induction false} WindowBounds(rs: seq<Request>)
    requires rs != []
    ensures AllWithin(rs, Window(rs))
  {
    forall i: nat | i < |rs| ensures DecodeS(rs[i]) <= Window(rs) {
      WithinWindow(rs, i);
    }
  }

  /** A balanced batch stays below the proxy, and a batch that fills its window does so only
      if it is balanced. */
  lemma {:induction false} BatchBound(ids: seq<int>, rs: seq<Request>, lengths: seq<int>, inputTokens: int)
    requires rs != [] && |ids| == |rs| && Timeline(rs, lengths)
    ensures Balanced(lengths) ==> BelowProxy(ids, rs, inputTokens)
    ensures AllFill(rs, Window(rs)) && inputTokens > 0 && MetricsOf(ids, rs).prefillS > 0.0 ==>
              (BelowProxy(ids, rs, inputTokens) ==> Balanced(lengths))
  {
    hide *;
    var w := Window(rs);
    WindowBounds(rs);
    TimelineTotals(rs, lengths, w);
    TotalsMean(rs, lengths, w);
    if Steps(lengths) > 0 {
      WindowPositive(rs, lengths);
      var k, n, m, t := Steps(lengths) as real, |rs| as real, Decoding(lengths) as real, Sum(Tpots(rs));
      BoundIff(k, w, n, m, t);
      LargestTotal(k, w, n, m, t, InverseSteps(lengths));
      BatchFigures(ids, rs, lengths, inputTokens);
      BalancedIs(lengths);
    } else {
      NothingDecodes(ids, rs, lengths, inputTokens);
    }
  }

  lemma {:induction false} TotalsMean(rs: seq<Request>, lengths: seq<int>, w: real)
    requires Timeline(rs, lengths) && Totals(rs, lengths, w)
    ensures |rs| == |lengths| && TotalGenerated(rs) == Steps(lengths) + |lengths|
    ensures |Tpots(rs)| == Decoding(lengths)
    ensures Sum(Tpots(rs)) <= 1000.0 * w * InverseSteps(lengths)
    ensures AllFill(rs, w) ==> Sum(Tpots(rs)) == 1000.0 * w * InverseSteps(lengths)
    ensures Steps(lengths) > 0 ==> Decoding(lengths) > 0 && Sum(Tpots(rs)) > 0.0
    ensures Steps(lengths) <= 0 ==> Steps(lengths) == 0 == Decoding(lengths)
  {
    hide Steps, Decoding, InverseSteps, Sum, Tpots, TotalGenerated, AllFill;
  }

  lemma {:induction false} WindowPositive(rs: seq<Request>, lengths: seq<int>)
    requires rs != [] && Timeline(rs, lengths) && TotalGenerated(rs) > |rs|
    ensures Window(rs) > 0.0
  {
    SomeDecodes(rs);
    var i: nat :| i < |rs| && DecodeS(rs[i]) > 0.0;
    WithinWindow(rs, i);
  }

  lemma {:induction false} BalancedIs(lengths: seq<int>)
    ensures Balanced(lengths) <==>
            Steps(lengths) as real * InverseSteps(lengths) <= |lengths| as real * Decoding(lengths) as real
  {
  }

  lemma {:induction false} BatchFigures(ids: seq<int>, rs: seq<Request>, lengths: seq<int>, inputTokens: int)
    requires rs != [] && |ids| == |rs| == |lengths| && Window(rs) > 0.0
    requires TotalGenerated(rs) == Steps(lengths) + |lengths| && Steps(lengths) > 0
    requires |Tpots(rs)| == Decoding(lengths) > 0 && Sum(Tpots(rs)) / Decoding(lengths) as real > 0.0
    ensures var obs := Steps(lengths) as real / Window(rs);
            var proxy := |rs| as real * 1000.0 / (Sum(Tpots(rs)) / Decoding(lengths) as real);
            BelowProxy(ids, rs, inputTokens) <==> (inputTokens > 0 && MetricsOf(ids, rs).prefillS > 0.0 ==> obs <= proxy)
  {
    hide Tpots, Sum, Window, TotalGenerated, Project, Steps, Decoding;
  }

  lemma {:induction false} NothingDecodes(ids: seq<int>, rs: seq<Request>, lengths: seq<int>, inputTokens: int)
    requires rs != [] && |ids| == |rs| == |lengths|
    requires TotalGenerated(rs) == |lengths| && Steps(lengths) == 0 == Decoding(lengths)
    ensures BelowProxy(ids, rs, inputTokens) && Balanced(lengths)
  {
    hide Tpots, Sum, Window, TotalGenerated, Project, Steps, Decoding, InverseSteps;
  }

  // ----- The bound for all timelines -----

  /** The timeline in which every request decodes over the whole window. */
  function Filled(lengths: seq<int>): seq<Request> {
    seq(|lengths|, i requires 0 <= i < |lengths| => Request(0.0, 1.0, 2.0, lengths[i]))
  }

  lemma {:induction false} FilledIs(ids: seq<int>, lengths: seq<int>)
    requires lengths != [] && |ids| == |lengths| && forall i | 0 <= i < |lengths| :: lengths[i] >= 1
    ensures Timeline(Filled(lengths), lengths) && Filled(lengths) != []
    ensures AllFill(Filled(lengths), Window(Filled(lengths)))
    ensures MetricsOf(ids, Filled(lengths)).prefillS == 1.0
  {
    hide Tpots;
    var rs := Filled(lengths);
    assert forall i | 0 <= i < |rs| :: Project(rs, FinishedAt)[i] == FinishedAt(rs[i]) == 2.0;
    assert forall i | 0 <= i < |rs| :: Project(rs, FirstAt)[i] == FirstAt(rs[i]) == 1.0;
    assert forall i | 0 <= i < |rs| :: Project(rs, PrefillS)[i] == PrefillS(rs[i]) == 1.0;
    assert Window(rs) == 1.0;
  }

  /** For given output lengths the observed decode throughput stays below the concurrency
      proxy on every possible timeline if and only if the lengths are balanced.  The timeline
      that decides is the one in which every request decodes over the whole window. */
  lemma {:induction false} BelowProxyIffBalanced(ids: seq<int>, lengths: seq<int>, inputTokens: int)
    requires lengths != [] && |ids| == |lengths| && inputTokens > 0
    requires forall i | 0 <= i < |lengths| :: lengths[i] >= 1
    ensures Balanced(lengths) <==>
            forall rs | Timeline(rs, lengths) :: BelowProxy(ids, rs, inputTokens)
  {
    hide BelowProxy, Balanced, MetricsOf, Filled;
    forall rs | Timeline(rs, lengths) ensures Balanced(lengths) ==> BelowProxy(ids, rs, inputTokens) {
      BatchBound(ids, rs, lengths, inputTokens);
    }
    FilledIs(ids, lengths);
    BatchBound(ids, Filled(lengths), lengths, inputTokens);
  }

  // ----- When every request decodes -----

  ghost predicate AllDecode(lengths: seq<int>) {
    forall i | 0 <= i < |lengths| :: lengths[i] > 1
  }

  ghost predicate AllAre(lengths: seq<int>, length: int) {
    forall i | 0 <= i < |lengths| :: lengths[i] == length
  }

  ghost predicate AllEqual(lengths: seq<int>) {
    forall i, j | 0 <= i < |lengths| && 0 <= j < |lengths| :: lengths[i] == lengths[j]
  }

  lemma {:induction false} RatioAndInverse(x: real, y: real)
    requires x > 0.0 && y > 0.0
    ensures x * (1.0 / y) + y * (1.0 / x) >= 2.0
    ensures x * (1.0 / y) + y * (1.0 / x) == 2.0 <==> x == y
  {
    hide *;
    var a, b := 1.0 / y, 1.0 / x;
    Quotient(1.0, y);
    Quotient(1.0, x);
    PositiveProduct(x, y);
    var q := SquareOfDifference(x, y, a, b);
    FromSquare(x * a + y * b, x * y, q);
  }

  lemma {:induction false} FromSquare(v: real, c: real, q: real)
    requires c > 0.0 && q >= 0.0 && v * c == 2.0 * c + q
    ensures v >= 2.0 && (v == 2.0 <==> q == 0.0)
  {
    hide *;
    TimesIff(2.0, v, c);
    TimesIff(v, 2.0, c);
  }

  lemma {:induction false} SquareOfDifference(x: real, y: real, a: real, b: real) returns (q: real)
    requires a * y == 1.0 && b * x == 1.0
    ensures (x * a + y * b) * (x * y) == 2.0 * (x * y) + q
    ensures q >= 0.0 && (q == 0.0 <==> x == y)
  {
    var d := x - y;
    q := d * d;
    SquareIs(d, q);
    assert x * a * (x * y) == x * x * (a * y) == x * x;
    assert y * b * (x * y) == y * y * (b * x) == y * y;
  }

  lemma {:induction false} SquareIs(d: real, q: real)
    requires q == d * d
    ensures q >= 0.0 && (q == 0.0 <==> d == 0.0)
  {
    if d > 0.0 {
      ProductIsPositive(d, d, q);
    } else if d < 0.0 {
      ProductIsPositive(-d, -d, q);
    }
  }

  lemma {:induction false} ProductIsPositive(a: real, b: real, q: real)
    requires a > 0.0 && b > 0.0 && q == a * b
    ensures q > 0.0
  {
    PositiveProduct(a, b);
  }

  /** Comparing all lengths with one more. */
  lemma {:induction false} CrossTerms(lengths: seq<int>, length: int)
    requires AllDecode(lengths) && length > 1
    ensures var cross := Steps(lengths) as real * Inverse(length) + (length - 1) as real * InverseSteps(lengths);
            && cross >= 2.0 * |lengths| as real
            && (cross == 2.0 * |lengths| as real <==> AllAre(lengths, length))
  {
    hide *;
    LengthsStep(lengths);
    if lengths == [] {
      NoTerms(Inverse(length), (length - 1) as real);
      AllAreNone(length);
    } else {
      var n := |lengths| - 1;
      DecodeStep(lengths);
      CrossTerms(lengths[..n], length);
      InverseIs(length);
      InverseIs(lengths[n]);
      RatioAndInverse((lengths[n] - 1) as real, (length - 1) as real);
      CrossStep(Steps(lengths[..n]) as real, (lengths[n] - 1) as real, Inverse(length),
                (length - 1) as real, InverseSteps(lengths[..n]), Inverse(lengths[n]));
      AllAreStep(lengths, length);
    }
  }

  lemma {:induction false} LengthsStep(lengths: seq<int>)
    ensures lengths == [] ==> Steps(lengths) == 0 == Decoding(lengths) && InverseSteps(lengths) == 0.0
    ensures lengths != [] ==>
              var front, last := lengths[..|lengths| - 1], lengths[|lengths| - 1];
              && Steps(lengths) as real == Steps(front) as real + (last - 1) as real
              && InverseSteps(lengths) == InverseSteps(front) + Inverse(last)
              && (last > 1 ==> Decoding(lengths) == Decoding(front) + 1)
  {
  }

  lemma {:induction false} DecodeStep(lengths: seq<int>)
    requires lengths != [] && AllDecode(lengths)
    ensures AllDecode(lengths[..|lengths| - 1]) && lengths[|lengths| - 1] > 1
  {
  }

  lemma {:induction false} InverseIs(length: int)
    requires length > 1
    ensures Inverse(length) == 1.0 / (length - 1) as real && (length - 1) as real * Inverse(length) == 1.0
  {
    Quotient(1.0, (length - 1) as real);
  }

  lemma {:induction false} NoTerms(p: real, y: real)
    ensures 0.0 * p + y * 0.0 == 0.0
  {
  }

  lemma {:induction false} AllAreNone(length: int)
    ensures AllAre([], length) && AllEqual([])
  {
  }

  lemma {:induction false} CrossStep(a: real, x: real, p: real, y: real, b: real, q: real)
    ensures (a + x) * p + y * (b + q) == (a * p + y * b) + (x * p + y * q)
  {
  }

  lemma {:induction false} AllAreStep(lengths: seq<int>, length: int)
    requires lengths != []
    ensures AllAre(lengths, length) <==>
            AllAre(lengths[..|lengths| - 1], length) && lengths[|lengths| - 1] == length
  {
    var n := |lengths| - 1;
    assert forall i | 0 <= i < n :: lengths[..n][i] == lengths[i];
  }

  lemma {:induction false} ProductStep(a: real, x: real, b: real, q: real)
    requires x * q == 1.0
    ensures (a + x) * (b + q) == a * b + (a * q + x * b) + 1.0
  {
  }

  lemma {:induction false} SquareStep(n: nat)
    ensures (n + 1) as real * (n + 1) as real == n as real * n as real + 2.0 * n as real + 1.0
  {
  }

  lemma {:induction false} EqualStep(lengths: seq<int>)
    requires lengths != []
    ensures AllEqual(lengths) <==>
            AllEqual(lengths[..|lengths| - 1]) && AllAre(lengths[..|lengths| - 1], lengths[|lengths| - 1])
  {
    var n := |lengths| - 1;
    assert forall i | 0 <= i < n :: lengths[..n][i] == lengths[i];
  }

  /** The mean of the lengths times the mean of their reciprocals is at least one, and one
      only for equal lengths. */
  lemma {:induction false} MeansOf(lengths: seq<int>)
    requires AllDecode(lengths)
    ensures Decoding(lengths) == |lengths|
    ensures var product := Steps(lengths) as real * InverseSteps(lengths);
            && product >= |lengths| as real * |lengths| as real
            && (product == |lengths| as real * |lengths| as real <==> AllEqual(lengths))
  {
    hide *;
    LengthsStep(lengths);
    if lengths == [] {
      AllAreNone(0);
    } else {
      var n := |lengths| - 1;
      DecodeStep(lengths);
      MeansOf(lengths[..n]);
      CrossTerms(lengths[..n], lengths[n]);
      InverseIs(lengths[n]);
      ProductStep(Steps(lengths[..n]) as real, (lengths[n] - 1) as real, InverseSteps(lengths[..n]), Inverse(lengths[n]));
      SquareStep(n);
      EqualStep(lengths);
    }
  }

  /** When every request decodes, only equal lengths are balanced: a single longer answer is
      enough for some timeline to exceed the proxy. */
  lemma {:induction false} BalancedIffEqual(lengths: seq<int>)
    requires AllDecode(lengths)
    ensures Balanced(lengths) <==> AllEqual(lengths)
  {
    MeansOf(lengths);
  }

  /** One slow short answer beside a fast long one, as an instance. */
  lemma {:induction false} MixedPairIsUnbalanced()
    ensures !Balanced([2, 101])
  {
    BalancedIffEqual([2, 101]);
    assert [2, 101][0] != [2, 101][1];
  }
}
