/** How much of each prompt a prefix cache could and did supply: block arithmetic, the
    split of cached tokens into planned and unplanned ones, and the totals. */
module CacheAccounting {
  import opened Wrappers

  // ----- Whole blocks -----

  /** Python's `//`: rounds towards minus infinity. */
  function FloorDiv(a: int, b: int): int
    requires b != 0
  {
    if b > 0 then a / b else (-a) / (-b)
  }

  /** `_usable_prefix_cache_tokens` */
  function UsableTokens(promptLen: int, blockSize: int): int {
    if blockSize <= 0 || promptLen <= 1 then 0 else FloorDiv(promptLen - 1, blockSize) * blockSize
  }

  function Min(a: int, b: int): int { if a <= b then a else b }

  function Max(a: int, b: int): int { if a >= b then a else b }

  /** `_eligible_cache_tokens` */
  function EligibleTokens(reusable: int, promptLen: int, blockSize: int): int
    requires blockSize != 0
  {
    Min(FloorDiv(reusable, blockSize) * blockSize, UsableTokens(promptLen, blockSize))
  }

  predicate WholeBlocks(tokens: int, blockSize: int)
    requires blockSize > 0
  {
    tokens % blockSize == 0
  }

  /** The most whole blocks among the first `limit` tokens. */
  ghost predicate MostBlocks(tokens: int, limit: int, blockSize: int)
    requires blockSize > 0
  {
    && 0 <= tokens <= limit && WholeBlocks(tokens, blockSize)
    && forall m {:trigger WholeBlocks(m, blockSize)} :: WholeBlocks(m, blockSize) && m <= limit ==> m <= tokens
  }

  lemma {:induction false} MulMonotone(a: int, b: int, c: nat)
    ensures a <= b ==> a * c <= b * c
  {
  }

  lemma {:induction false} BlocksBelow(m: int, limit: int, blockSize: nat)
    requires blockSize > 0 && WholeBlocks(m, blockSize) && m <= limit
    ensures m <= limit / blockSize * blockSize
  {
    var q := m / blockSize;
    assert m == q * blockSize;
    assert (limit / blockSize + 1) * blockSize == limit / blockSize * blockSize + blockSize;
    MulMonotone(limit / blockSize + 1, q, blockSize);
    MulMonotone(q, limit / blockSize, blockSize);
  }

  lemma {:induction false} WholeProduct(q: int, blockSize: nat)
    requires blockSize > 0
    ensures WholeBlocks(q * blockSize, blockSize)
  {
    hide *;
    ModOfProduct(q, blockSize);
    WholeIs(q * blockSize, blockSize);
  }

  lemma {:induction false} WholeIs(m: int, blockSize: nat)
    requires blockSize > 0
    ensures WholeBlocks(m, blockSize) <==> m % blockSize == 0
  {
  }

  lemma {:induction false} ModOfProduct(q: int, blockSize: nat)
    requires blockSize > 0
    ensures q * blockSize % blockSize == 0
  {
    var d, r := q * blockSize / blockSize, q * blockSize % blockSize;
    assert (q - d) * blockSize == r;
    if q - d >= 1 {
      MulMonotone(1, q - d, blockSize);
    } else if q - d <= -1 {
      MulMonotone(q - d, -1, blockSize);
    }
  }

  lemma {:induction false} RoundedDown(limit: nat, blockSize: nat)
    requires blockSize > 0
    ensures MostBlocks(limit / blockSize * blockSize, limit, blockSize)
  {
    WholeProduct(limit / blockSize, blockSize);
    MulMonotone(0, limit / blockSize, blockSize);
    forall m | WholeBlocks(m, blockSize) && m <= limit ensures m <= limit / blockSize * blockSize {
      BlocksBelow(m, limit, blockSize);
    }
  }

  /** The eligible tokens are the most whole blocks that the reusable prefix covers and
      that leave at least one prompt token to compute; none for a prompt of at most one
      token or a block size below zero. */
  lemma {:induction false} EligibleIsLargest(reusable: nat, promptLen: int, blockSize: int)
    requires blockSize != 0
    ensures blockSize > 0 && promptLen > 1 ==>
              MostBlocks(EligibleTokens(reusable, promptLen, blockSize), Min(reusable, promptLen - 1), blockSize)
    ensures blockSize < 0 || promptLen <= 1 ==> EligibleTokens(reusable, promptLen, blockSize) == 0
  {
    if blockSize > 0 {
      RoundedDown(reusable, blockSize);
      if promptLen > 1 {
        RoundedDown(promptLen - 1, blockSize);
      }
    } else {
      RoundsUp(reusable, blockSize);
    }
  }

  lemma {:induction false} RoundsUp(reusable: int, blockSize: int)
    requires reusable >= 0 && blockSize < 0
    ensures FloorDiv(reusable, blockSize) * blockSize >= 0
  {
    var q := FloorDiv(reusable, blockSize);
    assert q <= 0;
    MulMonotone(0, -q, -blockSize);
    assert q * blockSize == -q * -blockSize;
  }

  // ----- The longest common prefix -----

  ghost predicate LongestCommon(k: nat, left: seq<int>, right: seq<int>) {
    && k <= |left| && k <= |right| && left[..k] == right[..k]
    && forall j: nat | j <= |left| && j <= |right| && left[..j] == right[..j] :: j <= k
  }

  function CommonPrefix(left: seq<int>, right: seq<int>): nat {
    if left == [] || right == [] || left[0] != right[0] then 0 else 1 + CommonPrefix(left[1..], right[1..])
  }

  lemma {:induction false} CommonPrefixIsLongest(left: seq<int>, right: seq<int>)
    ensures LongestCommon(CommonPrefix(left, right), left, right)
  {
    if left != [] && right != [] && left[0] == right[0] {
      CommonPrefixIsLongest(left[1..], right[1..]);
      var k := CommonPrefix(left[1..], right[1..]);
      assert left[..k + 1] == [left[0]] + left[1..][..k] && right[..k + 1] == [right[0]] + right[1..][..k];
      forall j: nat | j <= |left| && j <= |right| && left[..j] == right[..j] ensures j <= k + 1 {
        if j > 0 {
          assert left[1..][..j - 1] == left[..j][1..] && right[1..][..j - 1] == right[..j][1..];
        }
      }
    } else {
      forall j: nat | j <= |left| && j <= |right| && left[..j] == right[..j] ensures j == 0 {
        SameFirst(left, right, j);
      }
    }
  }

  lemma {:induction false} SameFirst(left: seq<int>, right: seq<int>, j: nat)
    requires j <= |left| && j <= |right| && left[..j] == right[..j]
    ensures j > 0 ==> left[0] == right[0]
  {
    if j > 0 {
      assert left[0] == left[..j][0] && right[0] == right[..j][0];
    }
  }

  /** `_common_prefix_len` */
  method CommonPrefixLen(left: seq<int>, right: seq<int>) returns (count: nat)
    ensures LongestCommon(count, left, right)
    ensures count == CommonPrefix(left, right)
  {
    count := 0;
    while count < |left| && count < |right|
      invariant count <= |left| && count <= |right|
      invariant CommonPrefix(left, right) == count + CommonPrefix(left[count..], right[count..])
    {
      if left[count] != right[count] {
        break;
      }
      assert left[count..][1..] == left[count + 1..] && right[count..][1..] == right[count + 1..];
      count := count + 1;
    }
    CommonPrefixIsLongest(left, right);
  }

  /** The common prefix reaches the end of a shared beginning exactly if the other
      sequence starts with it too. */
  lemma {:induction false} ReachesIff(shared: seq<int>, rest: seq<int>, other: seq<int>)
    ensures CommonPrefix(other, shared + rest) >= |shared| <==> shared <= other
  {
    CommonPrefixIsLongest(other, shared + rest);
    var k := CommonPrefix(other, shared + rest);
    assert (shared + rest)[..|shared|] == shared;
    if k >= |shared| {
      assert other[..|shared|] == other[..k][..|shared|] == (shared + rest)[..k][..|shared|] == shared;
    }
    if shared <= other {
      assert other[..|shared|] == shared;
    }
  }

  // ----- Covered and beyond -----

  datatype Scope = NoHit | WithinPlan | BeyondPlan

  datatype Accounting = Accounting(covered: int, beyond: int, scope: Scope)

  /** `_cache_reuse_accounting` */
  function ReuseAccounting(cached: int, planned: int): Accounting {
    var beyond := Max(0, cached - planned);
    Accounting(Min(cached, planned), beyond, if cached == 0 then NoHit else if beyond > 0 then BeyondPlan else WithinPlan)
  }

  /** The cached tokens are split at the plan: nothing is lost, at most the plan is covered,
      and tokens lie beyond it only if all of it is covered. */
  lemma {:induction false} AccountingIs(cached: int, planned: int)
    ensures var a := ReuseAccounting(cached, planned);
            && a.covered + a.beyond == cached && a.covered <= planned && a.beyond >= 0
            && (a.beyond > 0 ==> a.covered == planned)
            && (a.scope.NoHit? <==> cached == 0)
            && (a.scope.BeyondPlan? <==> cached != 0 && cached > planned)
  {
  }

  /** What a trace line says of a successful request; `None` where a line lacks the field. */
  datatype Line = Line(promptTokens: int, cached: int, planned: Option<int>, eligible: Option<int>)

  function PlannedOf(line: Line): int {
    match line.planned
    case Some(planned) => planned
    case None => if line.eligible.Some? then line.eligible.value else 0
  }

  function Total(lines: seq<Line>, f: Line -> int): int {
    if lines == [] then 0 else Total(lines[..|lines| - 1], f) + f(lines[|lines| - 1])
  }

  function CachedOf(line: Line): int { line.cached }
  function PromptOf(line: Line): int { line.promptTokens }
  function CoveredOf(line: Line): int { Min(line.cached, PlannedOf(line)) }
  function BeyondOf(line: Line): int { Max(0, line.cached - PlannedOf(line)) }
  function IsBeyond(line: Line): int { if line.cached > PlannedOf(line) then 1 else 0 }

  /** The parts of a line, in its fields. */
  lemma {:induction false} LineParts(line: Line, planned: int)
    requires line.planned == Some(planned) || (line.planned.None? && line.eligible == Some(planned))
             || (line.planned.None? && line.eligible.None? && planned == 0)
    ensures PlannedOf(line) == planned && CachedOf(line) == line.cached && PromptOf(line) == line.promptTokens
    ensures line.cached <= planned ==> CoveredOf(line) == line.cached && BeyondOf(line) == IsBeyond(line) == 0
    ensures line.cached > planned ==>
              CoveredOf(line) == planned && BeyondOf(line) == line.cached - planned && IsBeyond(line) == 1
  {
  }

  /** `_cache_reuse_totals`.  No cached token is lost or counted twice. */
  method ReuseTotals(lines: seq<Line>) returns (planned: int, covered: int, beyond: int, beyondRequests: int)
    ensures planned == Total(lines, PlannedOf)
    ensures covered == Total(lines, CoveredOf) && beyond == Total(lines, BeyondOf)
    ensures covered + beyond == Total(lines, CachedOf)
    ensures beyondRequests == Total(lines, IsBeyond)
    ensures 0 <= beyondRequests <= |lines| && 0 <= beyond && (beyond == 0 <==> beyondRequests == 0)
  {
    planned, covered, beyond, beyondRequests := 0, 0, 0, 0;
    for i := 0 to |lines|
      invariant planned == Total(lines[..i], PlannedOf)
      invariant covered == Total(lines[..i], CoveredOf) && beyond == Total(lines[..i], BeyondOf)
      invariant covered + beyond == Total(lines[..i], CachedOf)
      invariant beyondRequests == Total(lines[..i], IsBeyond)
      invariant 0 <= beyondRequests <= i && 0 <= beyond && (beyond == 0 <==> beyondRequests == 0)
    {
      var accounting := ReuseAccounting(lines[i].cached, PlannedOf(lines[i]));
      TotalStep(lines, i, PlannedOf);
      TotalStep(lines, i, CoveredOf);
      TotalStep(lines, i, BeyondOf);
      TotalStep(lines, i, CachedOf);
      TotalStep(lines, i, IsBeyond);
      planned := planned + PlannedOf(lines[i]);
      covered := covered + accounting.covered;
      beyond := beyond + accounting.beyond;
      beyondRequests := beyondRequests + if accounting.beyond > 0 then 1 else 0;
    }
    assert lines[..|lines|] == lines;
  }

  lemma {:induction false} TotalStep(lines: seq<Line>, i: nat, f: Line -> int)
    requires i < |lines|
    ensures Total(lines[..i + 1], f) == Total(lines[..i], f) + f(lines[i])
  {
    assert lines[..i + 1][..i] == lines[..i];
  }

  lemma {:induction false} TotalAtMost(lines: seq<Line>, f: Line -> int, g: Line -> int, slack: int)
    requires forall i | 0 <= i < |lines| :: f(lines[i]) + slack <= g(lines[i])
    ensures Total(lines, f) + slack * |lines| <= Total(lines, g)
  {
    if lines != [] {
      TotalAtMost(lines[..|lines| - 1], f, g, slack);
    }
  }

  // ----- The summary of a run -----

  /** What every successful request of a run with non-empty prompts records. */
  ghost predicate Honest(line: Line) {
    && 0 <= line.cached <= line.promptTokens - 1
    && 0 <= PlannedOf(line)
  }

  function Ratio(part: int, whole: int): real {
    if whole == 0 then 0.0 else part as real / whole as real
  }

  /** The figures of `_write_sparsevllm_prefix_summary`. */
  datatype Summary = Summary(promptTokens: int, cachedTokens: int, planned: int, covered: int, beyond: int,
                             beyondRequests: int, hitRate: real, coverageRate: real, recomputed: int)

  /** The rate of a part: nothing of nothing is 0. */
  ghost predicate IsRate(rate: real, part: int, whole: int) {
    if whole == 0 then rate == 0.0 else rate * whole as real == part as real
  }

  lemma {:induction false} RatioIs(part: int, whole: int)
    ensures IsRate(Ratio(part, whole), part, whole)
  {
    if whole != 0 {
      var w := whole as real;
      assert part as real / w * w == part as real;
    }
  }

  method Summarize(lines: seq<Line>) returns (s: Summary)
    ensures s.planned == Total(lines, PlannedOf) && s.covered == Total(lines, CoveredOf)
    ensures s.beyond == Total(lines, BeyondOf) && s.beyondRequests == Total(lines, IsBeyond)
    ensures IsRate(s.hitRate, s.cachedTokens, s.promptTokens) && IsRate(s.coverageRate, s.covered, s.planned)
    ensures s.promptTokens == Total(lines, PromptOf) && s.cachedTokens == Total(lines, CachedOf)
    ensures s.covered + s.beyond == s.cachedTokens && s.recomputed + s.cachedTokens == s.promptTokens
    ensures (forall i | 0 <= i < |lines| :: Honest(lines[i])) ==>
              && s.recomputed >= |lines|
              && 0 <= s.covered <= s.planned
              && 0.0 <= s.coverageRate <= 1.0
              && 0.0 <= s.hitRate && (lines != [] ==> s.hitRate < 1.0)
  {
    var planned, covered, beyond, beyondRequests := ReuseTotals(lines);
    var prompt, cached := Total(lines, PromptOf), Total(lines, CachedOf);
    s := Summary(prompt, cached, planned, covered, beyond, beyondRequests,
                 Ratio(cached, prompt), Ratio(covered, planned), prompt - cached);
    RatioIs(cached, prompt);
    RatioIs(covered, planned);
    hide Ratio, IsRate;
    if forall i | 0 <= i < |lines| :: Honest(lines[i]) {
      HonestTotals(lines);
      RatioRange(covered, planned);
      RatioRange(cached, prompt);
    }
  }

  lemma {:induction false} RatioRange(part: int, whole: int)
    requires 0 <= part <= whole
    ensures 0.0 <= Ratio(part, whole) <= 1.0
    ensures part < whole ==> Ratio(part, whole) < 1.0
  {
    if whole != 0 {
      QuotientRange(part as real, whole as real, part as real / whole as real);
    }
  }

  lemma {:induction false} QuotientRange(p: real, w: real, r: real)
    requires 0.0 <= p <= w && 0.0 < w && r * w == p
    ensures 0.0 <= r <= 1.0
    ensures p < w ==> r < 1.0
  {
    if r < 0.0 { Signs(-r, w); }
    if r > 1.0 { Signs(r - 1.0, w); }
  }

  lemma {:induction false} Signs(x: real, y: real)
    requires x > 0.0 && y > 0.0
    ensures x * y > 0.0
  {
  }

  lemma {:induction false} HonestTotals(lines: seq<Line>)
    requires forall i | 0 <= i < |lines| :: Honest(lines[i])
    ensures Total(lines, CachedOf) + |lines| <= Total(lines, PromptOf)
    ensures 0 <= Total(lines, CachedOf)
    ensures 0 <= Total(lines, CoveredOf) <= Total(lines, PlannedOf)
  {
    TotalAtMost(lines, CachedOf, PromptOf, 1);
    TotalAtMost(lines, CoveredOf, PlannedOf, 0);
    NonNegative(lines, CoveredOf);
    NonNegative(lines, CachedOf);
  }

  lemma {:induction false} NonNegative(lines: seq<Line>, f: Line -> int)
    requires forall i | 0 <= i < |lines| :: f(lines[i]) >= 0
    ensures Total(lines, f) >= 0
  {
    if lines != [] {
      NonNegative(lines[..|lines| - 1], f);
    }
  }

  // ----- What a request may claim -----

  datatype MetricError = NegativeTokens | NegativeBlocks | BadBlockSize | NotAligned | BlockMismatch | TooMany

  /** `_trace_metric_error` */
  function TraceMetricError(cached: int, blocks: int, maxUsable: int, blockSize: int): Option<MetricError> {
    if cached < 0 then Some(NegativeTokens)
    else if blocks < 0 then Some(NegativeBlocks)
    else if cached == 0 && blocks == 0 then None
    else if blockSize <= 0 then Some(BadBlockSize)
    else if cached % blockSize != 0 then Some(NotAligned)
    else if blocks * blockSize != cached then Some(BlockMismatch)
    else if cached > maxUsable then Some(TooMany)
    else None
  }

  /** A claim passes exactly if it is nothing at all, or a positive number of whole blocks
      that leaves a prompt token to compute. */
  lemma {:induction false} ClaimPassesIff(cached: int, blocks: int, promptLen: nat, blockSize: int)
    ensures TraceMetricError(cached, blocks, UsableTokens(promptLen, blockSize), blockSize) == None <==>
            (cached == 0 && blocks == 0)
            || (blockSize > 0 && blocks > 0 && cached == blocks * blockSize && cached <= promptLen - 1)
  {
    if blockSize > 0 && blocks > 0 && cached == blocks * blockSize {
      MulMonotone(1, blocks, blockSize);
      ModOfProduct(blocks, blockSize);
      WholeProduct(blocks, blockSize);
      if promptLen > 1 {
        RoundedDown(promptLen - 1, blockSize);
      }
    }
    if blocks == 0 {
      assert blocks * blockSize == 0;
    }
  }
}
