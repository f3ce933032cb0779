/** One SCDQ session: a shared context, one request per question, and for each request the
    prefix it may find in the cache.  An object plays one session after the other, and a run
    flushes the records of each into the trace that its summary is made of. */
module CacheSession {
  import opened Wrappers
  import opened CacheAccounting

  /** What the engine does with a request: whether `add_request` returns, whether a later
      step raises, the tokens generated, and the cache hit reported. */
  datatype EngineRun = EngineRun(admitted: bool, raised: bool, generated: seq<int>, cached: int, blocks: int)

  datatype Status = Successful | ModelFailed | MetricFailed

  datatype Record = Record(status: Status, turn: int, prompt: nat, generated: nat, reusable: int, eligible: int,
                           maxUsable: int, cached: int, blocks: int, accounting: Accounting)

  /** `_prefix_cache_block_size`: an absent or zero setting means 16. */
  function BlockSizeOf(setting: Option<int>): (size: int)
    ensures size != 0
    ensures setting != Some(size) ==> size == 16
  {
    if setting.None? || setting.value == 0 then 16 else setting.value
  }

  /** The trace record of a request. */
  function MakeRecord(prompt: seq<int>, turn: int, reusable: int, blockSize: int, run: EngineRun): Record
    requires blockSize != 0
  {
    var eligible := EligibleTokens(reusable, |prompt|, blockSize);
    var usable := UsableTokens(|prompt|, blockSize);
    var error := TraceMetricError(run.cached, run.blocks, usable, blockSize);
    Record(if error.Some? then MetricFailed else if run.raised then ModelFailed else Successful,
           turn, |prompt|, |run.generated|, reusable, eligible, usable, run.cached, run.blocks,
           ReuseAccounting(run.cached, eligible))
  }

  /** The trace line that a record becomes. */
  function LineOf(r: Record): Line {
    Line(r.prompt, r.cached, Some(r.eligible), Some(r.eligible))
  }

  /** A successful request with a non-empty prompt leaves a token to compute, and its
      cached tokens are split without loss. */
  lemma {:induction false} SuccessIsHonest(prompt: seq<int>, turn: int, reusable: nat, blockSize: int, run: EngineRun)
    requires blockSize != 0 && prompt != []
    ensures var r := MakeRecord(prompt, turn, reusable, blockSize, run);
            && r.accounting.covered + r.accounting.beyond == r.cached
            && (r.status.Successful? ==> Honest(LineOf(r)) && 0 <= r.accounting.covered <= r.eligible <= r.prompt - 1)
  {
    EligibleIsLargest(reusable, |prompt|, blockSize);
    ClaimPassesIff(run.cached, run.blocks, |prompt|, blockSize);
  }

  /** The fields of a record, and what decides its status: a reported hit that is not whole
      blocks within the prompt makes the metrics fail, whatever the engine did. */
  lemma {:induction false} RecordIs(prompt: seq<int>, turn: int, reusable: int, blockSize: int, run: EngineRun)
    requires blockSize != 0
    ensures var r := MakeRecord(prompt, turn, reusable, blockSize, run);
            var claim := run.cached == run.blocks == 0
                         || (blockSize > 0 && run.blocks > 0 && run.cached == run.blocks * blockSize
                             && run.cached <= |prompt| - 1);
            && (r.status.MetricFailed? <==> !claim)
            && (r.status.ModelFailed? <==> claim && run.raised)
            && (r.status.Successful? <==> claim && !run.raised)
            && r.turn == turn && r.prompt == |prompt| && r.generated == |run.generated| && r.reusable == reusable
            && r.cached == run.cached && r.blocks == run.blocks
            && r.eligible == EligibleTokens(reusable, |prompt|, blockSize)
            && r.maxUsable == UsableTokens(|prompt|, blockSize)
            && r.accounting == ReuseAccounting(run.cached, r.eligible)
            && LineOf(r).promptTokens == r.prompt && LineOf(r).cached == r.cached && PlannedOf(LineOf(r)) == r.eligible
  {
    ClaimPassesIff(run.cached, run.blocks, |prompt|, blockSize);
  }

  // ----- The plan of a turn -----

  /** `max(_common_prefix_len(prefix, input) for prefix in cached)` */
  function MaxCommon(cached: seq<seq<int>>, input: seq<int>): nat
    requires cached != []
  {
    var n := |cached| - 1;
    var last := CommonPrefix(cached[n], input);
    if n == 0 then last
    else
      var front := MaxCommon(cached[..n], input);
      if last > front then last else front
  }

  lemma {:induction false} MaxCommonIs(cached: seq<seq<int>>, input: seq<int>)
    requires cached != []
    ensures exists i :: 0 <= i < |cached| && CommonPrefix(cached[i], input) == MaxCommon(cached, input)
    ensures forall i | 0 <= i < |cached| :: CommonPrefix(cached[i], input) <= MaxCommon(cached, input)
  {
    var n := |cached| - 1;
    if n > 0 {
      MaxCommonIs(cached[..n], input);
      var i :| 0 <= i < n && CommonPrefix(cached[..n][i], input) == MaxCommon(cached[..n], input);
      assert cached[..n][i] == cached[i];
      forall j | 0 <= j < n ensures CommonPrefix(cached[j], input) <= MaxCommon(cached[..n], input) {
        assert cached[..n][j] == cached[j];
      }
      assert CommonPrefix(cached[i], input) == MaxCommon(cached, input)
             || CommonPrefix(cached[n], input) == MaxCommon(cached, input);
    } else {
      assert CommonPrefix(cached[0], input) == MaxCommon(cached, input);
    }
  }

  method MaxCommonLen(cached: seq<seq<int>>, input: seq<int>) returns (reusable: nat)
    requires cached != []
    ensures reusable == MaxCommon(cached, input)
  {
    reusable := CommonPrefixLen(cached[0], input);
    assert cached[..1] == [cached[0]];
    for i := 1 to |cached|
      invariant reusable == MaxCommon(cached[..i], input)
    {
      var k := CommonPrefixLen(cached[i], input);
      assert cached[..i + 1][..i] == cached[..i];
      if k > reusable {
        reusable := k;
      }
    }
    assert cached[..|cached|] == cached;
  }

  /** With nothing cached in this session the whole context is declared reusable, although
      no request has put it there. */
  function PlannedReuse(context: seq<int>, input: seq<int>, cached: seq<seq<int>>): nat {
    if cached == [] then |context| else MaxCommon(cached, input)
  }

  // ----- A session as a function of what the engine does -----

  /** `last` is what the object remembers of its last successful request ever. */
  datatype Session = Session(records: seq<Record>, last: Option<seq<int>>, cached: seq<seq<int>>, raised: bool)

  datatype Setting = Setting(blockSize: int, context: seq<int>, runs: nat -> EngineRun)

  /** The record of a turn, given what is cached before it. */
  function RecordOf(c: Setting, question: seq<int>, turn: nat, cached: seq<seq<int>>): Record
    requires c.blockSize != 0
  {
    var input := c.context + question;
    MakeRecord(input, turn, PlannedReuse(c.context, input, cached), c.blockSize, c.runs(turn))
  }

  /** One turn.  A request that is not admitted leaves no record. */
  function PlayTurn(c: Setting, question: seq<int>, turn: nat, s: Session): Session
    requires c.blockSize != 0
  {
    var input, run := c.context + question, c.runs(turn);
    if !run.admitted then s.(raised := true)
    else
      var record := RecordOf(c, question, turn, s.cached);
      var last := if record.status.Successful? then Some(input + run.generated) else s.last;
      Session(s.records + [record], last,
              s.cached + if run.raised || last.None? then [] else [last.value],
              run.raised)
  }

  function Play(c: Setting, questions: seq<seq<int>>, last: Option<seq<int>>): Session
    requires c.blockSize != 0
  {
    if questions == [] then Session([], last, [], false)
    else
      var n := |questions| - 1;
      var s := Play(c, questions[..n], last);
      if s.raised then s else PlayTurn(c, questions[n], n, s)
  }

  /** What a successful turn leaves in the cache. */
  function Sequence(c: Setting, questions: seq<seq<int>>, turn: nat): seq<int>
    requires turn < |questions|
  {
    c.context + questions[turn] + c.runs(turn).generated
  }

  lemma {:induction false} PlayLength(c: Setting, questions: seq<seq<int>>, last: Option<seq<int>>)
    requires c.blockSize != 0
    ensures var s := Play(c, questions, last);
            && |s.records| <= |questions|
            && (!s.raised ==> |s.records| == |questions|)
  {
    if questions != [] {
      PlayLength(c, questions[..|questions| - 1], last);
    }
  }

  /** Record `t` is made in the state after the first `t` turns, none of which raised. */
  lemma {:induction false} RecordAt(c: Setting, questions: seq<seq<int>>, last: Option<seq<int>>, t: nat)
    requires c.blockSize != 0 && t < |Play(c, questions, last).records|
    ensures t < |questions| && !Play(c, questions[..t], last).raised
    ensures Play(c, questions, last).records[t] ==
            RecordOf(c, questions[t], t, Play(c, questions[..t], last).cached)
    ensures |Play(c, questions[..t], last).records| == t
  {
    hide RecordOf;
    var n := |questions| - 1;
    PlayLength(c, questions[..n], last);
    var s := Play(c, questions[..n], last);
    if t < |s.records| {
      RecordAt(c, questions[..n], last, t);
      assert questions[..n][..t] == questions[..t];
    } else {
      assert t == n;
    }
  }

  /** `p` is what some successful turn left in the cache. */
  ghost predicate IsSequence(c: Setting, questions: seq<seq<int>>, records: seq<Record>, p: seq<int>)
    requires |records| == |questions|
  {
    exists u: nat :: u < |questions| && records[u].status.Successful? && Sequence(c, questions, u) == p
  }

  /** The sequence of every successful turn is cached, and besides these at most what the
      object remembered from before the session. */
  ghost predicate CachedSound(c: Setting, questions: seq<seq<int>>, last: Option<seq<int>>, s: Session) {
    && |s.records| == |questions|
    && (forall u: nat | u < |questions| && s.records[u].status.Successful? :: Sequence(c, questions, u) in s.cached)
    && (forall p | p in s.cached :: last == Some(p) || IsSequence(c, questions, s.records, p))
    && (s.last.Some? ==> last == s.last || IsSequence(c, questions, s.records, s.last.value))
    && (last.Some? ==> s.last.Some? && |s.cached| == |questions|)
  }

  lemma {:induction false} IsSequenceExtends(c: Setting, questions: seq<seq<int>>, records: seq<Record>, r: Record, p: seq<int>)
    requires |questions| == |records| + 1
    requires IsSequence(c, questions[..|records|], records, p)
    ensures IsSequence(c, questions, records + [r], p)
  {
    var n := |records|;
    var u: nat :| u < n && records[u].status.Successful? && Sequence(c, questions[..n], u) == p;
    assert (records + [r])[u].status.Successful? && Sequence(c, questions, u) == p;
  }

  lemma {:induction false} LastIsSequence(c: Setting, questions: seq<seq<int>>, records: seq<Record>)
    requires |records| == |questions| > 0 && records[|records| - 1].status.Successful?
    ensures IsSequence(c, questions, records, Sequence(c, questions, |records| - 1))
  {
  }

  lemma {:induction false} CachedNext(c: Setting, questions: seq<seq<int>>, last: Option<seq<int>>, front: Session)
    requires c.blockSize != 0 && questions != []
    requires CachedSound(c, questions[..|questions| - 1], last, front)
    requires var n := |questions| - 1; !PlayTurn(c, questions[n], n, front).raised
    ensures var n := |questions| - 1; CachedSound(c, questions, last, PlayTurn(c, questions[n], n, front))
  {
    hide RecordOf, IsSequence;
    var n := |questions| - 1;
    var s := PlayTurn(c, questions[n], n, front);
    var r := s.records[n];
    forall p | IsSequence(c, questions[..n], front.records, p) ensures IsSequence(c, questions, s.records, p) {
      IsSequenceExtends(c, questions, front.records, r, p);
    }
    if r.status.Successful? {
      assert s.last == Some(Sequence(c, questions, n));
      LastIsSequence(c, questions, s.records);
    }
    forall u: nat | u < |questions| && s.records[u].status.Successful? ensures Sequence(c, questions, u) in s.cached {
      if u < n {
        assert Sequence(c, questions[..n], u) == Sequence(c, questions, u);
      } else {
        assert s.cached[|s.cached| - 1] == Sequence(c, questions, u);
      }
    }
  }

  /** What is cached after any number of turns. */
  lemma {:induction false} CachedIs(c: Setting, questions: seq<seq<int>>, last: Option<seq<int>>)
    requires c.blockSize != 0 && !Play(c, questions, last).raised
    ensures CachedSound(c, questions, last, Play(c, questions, last))
  {
    if questions != [] {
      hide PlayTurn, CachedSound;
      CachedIs(c, questions[..|questions| - 1], last);
      CachedNext(c, questions, last, Play(c, questions[..|questions| - 1], last));
    } else {
      hide Sequence, IsSequence;
    }
  }

  lemma {:induction false} RecordPlan(c: Setting, question: seq<int>, turn: nat, cached: seq<seq<int>>)
    requires c.blockSize != 0
    ensures RecordOf(c, question, turn, cached).reusable == PlannedReuse(c.context, c.context + question, cached)
  {
  }

  /** After a successful turn the plan of every later turn is the longest common prefix with
      something really cached, and never less than the shared context. */
  lemma {:induction false} LaterPlansReachContext(c: Setting, questions: seq<seq<int>>, last: Option<seq<int>>,
                                                  u: nat, t: nat)
    requires c.blockSize != 0 && u < t < |Play(c, questions, last).records|
    requires Play(c, questions, last).records[u].status.Successful?
    ensures t < |questions|
    ensures var reusable := Play(c, questions, last).records[t].reusable;
            && |c.context| <= CommonPrefix(Sequence(c, questions, u), c.context + questions[t]) <= reusable
            && reusable <= |c.context + questions[t]|
  {
    hide Play, PlayTurn, MakeRecord, MaxCommon, CommonPrefix;
    RecordAt(c, questions, last, t);
    RecordAt(c, questions, last, u);
    RecordPlan(c, questions[t], t, Play(c, questions[..t], last).cached);
    var before := Play(c, questions[..t], last);
    CachedIs(c, questions[..t], last);
    RecordAt(c, questions[..t], last, u);
    assert questions[..t][..u] == questions[..u];
    assert Sequence(c, questions[..t], u) == Sequence(c, questions, u);
    var input := c.context + questions[t];
    MaxCommonIs(before.cached, input);
    var p := Sequence(c, questions, u);
    assert p[..|c.context|] == c.context;
    ReachesIff(c.context, questions[t], p);
    var i :| 0 <= i < |before.cached| && CommonPrefix(before.cached[i], input) == MaxCommon(before.cached, input);
    CommonPrefixIsLongest(before.cached[i], input);
  }

  /** The plan of any turn falls short of the context exactly when something is cached and
      nothing cached begins with it. */
  lemma {:induction false} PlanReachesContextIff(context: seq<int>, question: seq<int>, cached: seq<seq<int>>)
    ensures PlannedReuse(context, context + question, cached) >= |context| <==>
            cached == [] || exists i :: 0 <= i < |cached| && context <= cached[i]
  {
    if cached != [] {
      MaxCommonIs(cached, context + question);
      forall i | 0 <= i < |cached|
        ensures CommonPrefix(cached[i], context + question) >= |context| <==> context <= cached[i]
      {
        ReachesIff(context, question, cached[i]);
      }
    }
  }

  // ----- When a plan falls short -----

  ghost predicate NoneBefore(s: Session, t: nat) {
    forall u: nat | u < t && u < |s.records| :: !s.records[u].status.Successful?
  }

  /** Without a success the session knows only what was remembered from before it. */
  lemma {:induction false} OnlyRemembered(c: Setting, questions: seq<seq<int>>, last: Option<seq<int>>)
    requires c.blockSize != 0 && !Play(c, questions, last).raised
    requires NoneBefore(Play(c, questions, last), |questions|)
    ensures var cached := Play(c, questions, last).cached;
            && (forall p | p in cached :: last == Some(p))
            && (last.Some? ==> |cached| == |questions|)
  {
    hide Play;
    CachedIs(c, questions, last);
  }

  lemma {:induction false} NoneBeforePrefix(c: Setting, questions: seq<seq<int>>, last: Option<seq<int>>, t: nat)
    requires c.blockSize != 0 && t < |Play(c, questions, last).records| && NoneBefore(Play(c, questions, last), t)
    ensures t < |questions| && NoneBefore(Play(c, questions[..t], last), t)
  {
    hide Play;
    RecordAt(c, questions, last, t);
    forall u: nat | u < t && u < |Play(c, questions[..t], last).records|
      ensures !Play(c, questions[..t], last).records[u].status.Successful?
    {
      RecordAt(c, questions, last, u);
      RecordAt(c, questions[..t], last, u);
      assert questions[..t][..u] == questions[..u];
    }
  }

  lemma {:induction false} FromMemory(context: seq<int>, cached: seq<seq<int>>, last: Option<seq<int>>, t: nat)
    requires forall p | p in cached :: last == Some(p)
    requires last.Some? ==> |cached| == t
    ensures (cached == [] || exists i :: 0 <= i < |cached| && context <= cached[i]) <==>
            !(t > 0 && last.Some? && !(context <= last.value))
  {
    forall i | 0 <= i < |cached| ensures last == Some(cached[i]) {
      assert cached[i] in cached;
    }
    assert cached == [] || last == Some(cached[0]);
  }

  /** A turn's plan falls short of the shared context exactly when it is not the first, no
      earlier one succeeded, and the object remembers from before the session a sequence
      that does not begin with the context. */
  lemma {:induction false} ShortPlanIff(c: Setting, questions: seq<seq<int>>, last: Option<seq<int>>, t: nat)
    requires c.blockSize != 0 && t < |Play(c, questions, last).records|
    ensures var s := Play(c, questions, last);
            s.records[t].reusable < |c.context| <==>
            t > 0 && NoneBefore(s, t) && last.Some? && !(c.context <= last.value)
  {
    hide Play, RecordOf, PlannedReuse;
    var s := Play(c, questions, last);
    RecordAt(c, questions, last, t);
    var before := Play(c, questions[..t], last);
    RecordPlan(c, questions[t], t, before.cached);
    PlanReachesContextIff(c.context, questions[t], before.cached);
    if NoneBefore(s, t) {
      NoneBeforePrefix(c, questions, last, t);
      OnlyRemembered(c, questions[..t], last);
      FromMemory(c.context, before.cached, last, t);
    } else {
      var u: nat :| u < t && s.records[u].status.Successful?;
      LaterPlansReachContext(c, questions, last, u, t);
    }
  }

  /** It happens to an object that plays two sessions: a first turn whose reported hit is
      not whole blocks leaves the other session's sequence as the only one remembered. */
  lemma {:induction false} StaleSequenceLowersPlan()
    returns (c1: Setting, c2: Setting, asked1: seq<seq<int>>, asked2: seq<seq<int>>)
    ensures c1.blockSize == c2.blockSize == 16
    ensures var s1 := Play(c1, asked1, None);
            var s2 := Play(c2, asked2, s1.last);
            && !s1.raised && !s2.raised && |s1.records| == 1 && |s2.records| == 2
            && s2.records[1].reusable < |c2.context|
  {
    c1 := Setting(16, [9], t => EngineRun(true, false, [], 0, 0));
    c2 := Setting(16, [1], t => EngineRun(true, false, [], if t == 0 then 5 else 0, 0));
    asked1, asked2 := [[8]], [[2], [3]];
    assert asked1[..0] == [];
    var s1 := Play(c1, asked1, None);
    assert s1 == PlayTurn(c1, [8], 0, Play(c1, [], None));
    assert c1.context + [8] + [] == [9, 8];
    assert s1.records[0].status.Successful?;
    StaleSession(c2, s1.last);
  }

  lemma {:induction false} StaleSession(c: Setting, last: Option<seq<int>>)
    requires c == Setting(16, [1], c.runs) && last == Some([9, 8])
    requires forall t: nat :: c.runs(t) == EngineRun(true, false, [], if t == 0 then 5 else 0, 0)
    ensures var s := Play(c, [[2], [3]], last);
            !s.raised && |s.records| == 2 && s.records[1].reusable < |c.context|
  {
    var questions: seq<seq<int>> := [[2], [3]];
    assert questions[..1] == [[2]] && questions[..1][..0] == [];
    var one := Play(c, questions[..1], last);
    assert one == PlayTurn(c, [2], 0, Play(c, [], last));
    var two := Play(c, questions, last);
    assert two == PlayTurn(c, [3], 1, one);
    ShortPlanIff(c, questions, last, 1);
  }

  // ----- A run over many examples -----

  datatype Example = Example(context: seq<int>, questions: seq<seq<int>>, runs: nat -> EngineRun)

  /** `trace` is what has been flushed to the file, `left` what the object still holds. */
  datatype Pass = Pass(trace: seq<Record>, left: seq<Record>, last: Option<seq<int>>, raised: bool)

  function SessionOf(blockSize: int, e: Example, last: Option<seq<int>>): Session
    requires blockSize != 0
  {
    Play(Setting(blockSize, e.context, e.runs), e.questions, last)
  }

  /** All that the object holds is flushed when a session has returned.  `held` and `last` are
      what it holds and remembers at the start. */
  function PlayAll(blockSize: int, examples: seq<Example>, held: seq<Record>, last: Option<seq<int>>): Pass
    requires blockSize != 0
  {
    if examples == [] then Pass([], held, last, false)
    else
      var n := |examples| - 1;
      var p := PlayAll(blockSize, examples[..n], held, last);
      if p.raised then p
      else
        var s := SessionOf(blockSize, examples[n], p.last);
        if s.raised then Pass(p.trace, p.left + s.records, s.last, true)
        else Pass(p.trace + (p.left + s.records), [], s.last, false)
  }

  /** A run ends early exactly if, with everything before played through, some session raises. */
  lemma {:induction false} RaisedIff(blockSize: int, examples: seq<Example>, held: seq<Record>, last: Option<seq<int>>)
    requires blockSize != 0
    ensures PlayAll(blockSize, examples, held, last).raised <==>
            exists i: nat :: i < |examples| && RaisesAt(blockSize, examples, held, last, i)
  {
    if examples != [] {
      hide SessionOf;
      var n: nat := |examples| - 1;
      var front := examples[..n];
      RaisedIff(blockSize, front, held, last);
      forall i: nat | i < n
        ensures RaisesAt(blockSize, front, held, last, i) <==> RaisesAt(blockSize, examples, held, last, i)
      {
        assert front[..i] == examples[..i];
      }
      if PlayAll(blockSize, front, held, last).raised {
        var i: nat :| i < n && RaisesAt(blockSize, front, held, last, i);
        assert RaisesAt(blockSize, examples, held, last, i);
      } else {
        assert PlayAll(blockSize, examples, held, last).raised <==> RaisesAt(blockSize, examples, held, last, n);
      }
    }
  }

  ghost predicate RaisesAt(blockSize: int, examples: seq<Example>, held: seq<Record>, last: Option<seq<int>>, i: nat)
    requires blockSize != 0 && i < |examples|
  {
    var before := PlayAll(blockSize, examples[..i], held, last);
    !before.raised && SessionOf(blockSize, examples[i], before.last).raised
  }

  /** From one example to the next: no record is lost, a session that returns leaves nothing in
      the object, and one that raises adds nothing to the trace. */
  lemma {:induction false} PassNext(blockSize: int, examples: seq<Example>, held: seq<Record>, last: Option<seq<int>>, i: nat)
    requires blockSize != 0 && i < |examples|
    ensures PlayAll(blockSize, examples[..0], held, last) == Pass([], held, last, false)
    ensures var p, q := PlayAll(blockSize, examples[..i], held, last), PlayAll(blockSize, examples[..i + 1], held, last);
            if p.raised then q == p
            else
              var s := SessionOf(blockSize, examples[i], p.last);
              && q.trace + q.left == p.trace + p.left + s.records && q.last == s.last
              && (q.raised <==> s.raised)
              && (if s.raised then q.trace == p.trace else q.left == [])
  {
    hide SessionOf;
    assert examples[..i + 1][..i] == examples[..i];
  }

  function LineIf(r: Record): seq<Line> {
    if r.status.Successful? then [LineOf(r)] else []
  }

  /** What `_write_sparsevllm_prefix_summary` sums over. */
  function SuccessLines(records: seq<Record>): seq<Line> {
    if records == [] then []
    else
      var n := |records| - 1;
      SuccessLines(records[..n]) + LineIf(records[n])
  }

  /** The lines are those of the successful records, in order. */
  lemma {:induction false} SuccessLinesAre(records: seq<Record>, more: seq<Record>)
    ensures SuccessLines([]) == []
    ensures SuccessLines(records + more) == SuccessLines(records) + SuccessLines(more)
    ensures |more| == 1 ==> SuccessLines(more) == if more[0].status == Successful then [LineOf(more[0])] else []
  {
    hide LineOf;
    if more != [] {
      var n := |more| - 1;
      SuccessLinesAre(records, more[..n]);
      var all := records + more;
      assert all[..|all| - 1] == records + more[..n] && all[|all| - 1] == more[n];
      LastLine(all);
      LastLine(more);
      hide SuccessLines;
      Regroup(SuccessLines(records), SuccessLines(more[..n]), LineIf(more[n]));
    } else {
      assert records + more == records;
    }
  }

  lemma {:induction false} LastLine(records: seq<Record>)
    requires records != []
    ensures SuccessLines(records) == SuccessLines(records[..|records| - 1]) + LineIf(records[|records| - 1])
  {
  }

  lemma {:induction false} Regroup<T>(a: seq<T>, b: seq<T>, c: seq<T>)
    ensures (a + b) + c == a + (b + c)
  {
  }

  ghost predicate HonestRecords(records: seq<Record>) {
    forall i | 0 <= i < |records| && records[i].status.Successful? :: Honest(LineOf(records[i]))
  }

  lemma {:induction false} HonestLines(records: seq<Record>)
    requires HonestRecords(records)
    ensures forall i | 0 <= i < |SuccessLines(records)| :: Honest(SuccessLines(records)[i])
  {
    if records != [] {
      hide Honest, LineOf;
      var n := |records| - 1;
      HonestLines(records[..n]);
    }
  }

  /** Every line of a session's trace that reports success satisfies what the summary of a
      run relies on, so at least one token per request is recomputed. */
  lemma {:induction false} SessionIsHonest(c: Setting, questions: seq<seq<int>>, last: Option<seq<int>>, t: nat)
    requires c.blockSize != 0 && t < |Play(c, questions, last).records|
    requires Play(c, questions, last).records[t].status.Successful?
    requires c.context != []
    ensures Honest(LineOf(Play(c, questions, last).records[t]))
  {
    RecordAt(c, questions, last, t);
    var input := c.context + questions[t];
    SuccessIsHonest(input, t, PlannedReuse(c.context, input, Play(c, questions[..t], last).cached), c.blockSize, c.runs(t));
  }

  /** Whatever the engine does in whatever session, the trace of a run and the records that
      a raise leaves behind are honest. */
  lemma {:induction false} TraceIsHonest(blockSize: int, examples: seq<Example>, held: seq<Record>,
                                         last: Option<seq<int>>)
    requires blockSize != 0 && HonestRecords(held)
    requires forall e | e in examples :: e.context != []
    ensures var p := PlayAll(blockSize, examples, held, last);
            HonestRecords(p.trace) && HonestRecords(p.left)
  {
    if examples != [] {
      hide Play, LineOf, Honest;
      var n := |examples| - 1;
      TraceIsHonest(blockSize, examples[..n], held, last);
      var p := PlayAll(blockSize, examples[..n], held, last);
      var e := examples[n];
      var s := SessionOf(blockSize, e, p.last);
      forall t | 0 <= t < |s.records| && s.records[t].status.Successful? ensures Honest(LineOf(s.records[t])) {
        SessionIsHonest(Setting(blockSize, e.context, e.runs), e.questions, p.last, t);
      }
    }
  }

  // ----- The object -----

  class SparseVLLMSCBenchSearch {
    const blockSize: int
    var traceRecords: seq<Record>
    var requestCounter: nat
    var lastCachePrefix: Option<seq<int>>

    constructor (setting: Option<int>)
      ensures blockSize == BlockSizeOf(setting)
      ensures traceRecords == [] && requestCounter == 0 && lastCachePrefix == None
    {
      blockSize := BlockSizeOf(setting);
      traceRecords, requestCounter, lastCachePrefix := [], 0, None;
    }

    /** `_run_one_request`: a request that `add_request` rejects leaves no trace.  From then
        on the record is written whether or not the engine raises; only a successful request
        becomes the last cached sequence. */
    method RunOneRequest(prompt: seq<int>, turn: int, reusable: int, run: EngineRun) returns (answer: Option<seq<int>>)
      requires blockSize != 0
      modifies this
      ensures traceRecords ==
              old(traceRecords) + if run.admitted then [MakeRecord(prompt, turn, reusable, blockSize, run)] else []
      ensures requestCounter == old(requestCounter) + if run.admitted then 1 else 0
      ensures lastCachePrefix ==
              if run.admitted && MakeRecord(prompt, turn, reusable, blockSize, run).status.Successful?
              then Some(prompt + run.generated) else old(lastCachePrefix)
      ensures answer == if !run.admitted || run.raised then None else Some(run.generated)
    {
      var eligible := EligibleTokens(reusable, |prompt|, blockSize);
      var usable := UsableTokens(|prompt|, blockSize);
      if !run.admitted {
        return None;
      }
      requestCounter := requestCounter + 1;
      var status := if run.raised then ModelFailed else Successful;
      var error := TraceMetricError(run.cached, run.blocks, usable, blockSize);
      if error.Some? {
        status := MetricFailed;
      }
      traceRecords := traceRecords + [Record(status, turn, |prompt|, |run.generated|, reusable, eligible, usable,
                                             run.cached, run.blocks, ReuseAccounting(run.cached, eligible))];
      if status.Successful? {
        lastCachePrefix := Some(prompt + run.generated);
      }
      return if run.raised then None else Some(run.generated);
    }

    /** `pop_prefix_cache_trace_records` */
    method PopRecords() returns (records: seq<Record>)
      modifies this`traceRecords
      ensures records == old(traceRecords) && traceRecords == []
    {
      records := traceRecords;
      traceRecords := [];
    }

    /** `test_scdq`: plays the session, or stops at the turn that raises. */
    method TestScdq(context: seq<int>, questions: seq<seq<int>>, runs: nat -> EngineRun)
      returns (answers: Option<seq<seq<int>>>)
      requires blockSize != 0
      modifies this
      ensures var s := Play(Setting(blockSize, context, runs), questions, old(lastCachePrefix));
              && traceRecords == old(traceRecords) + s.records
              && requestCounter == old(requestCounter) + |s.records|
              && lastCachePrefix == s.last
              && (answers.None? <==> s.raised)
      ensures answers.Some? ==>
                && |answers.value| == |questions|
                && forall t: nat | t < |questions| :: answers.value[t] == runs(t).generated
    {
      hide Play, MakeRecord, TraceMetricError, MaxCommon;
      ghost var c := Setting(blockSize, context, runs);
      NotPlayed(c, questions, lastCachePrefix);
      ghost var last0 := lastCachePrefix;
      ghost var before := traceRecords;
      var results: seq<seq<int>> := [];
      var cached: seq<seq<int>> := [];
      ghost var s := Session([], last0, [], false);
      for turn: nat := 0 to |questions|
        invariant s == Play(c, questions[..turn], last0) && !s.raised
        invariant traceRecords == before + s.records
        invariant requestCounter == old(requestCounter) + |s.records|
        invariant lastCachePrefix == s.last && cached == s.cached
        invariant |results| == turn && forall t: nat | t < turn :: results[t] == runs(t).generated
      {
        var input := context + questions[turn];
        var reusable := |context|;
        if cached != [] {
          reusable := MaxCommonLen(cached, input);
        }
        var answer := RunOneRequest(input, turn, reusable, runs(turn));
        PlayNext(c, questions, last0, turn);
        s := PlayTurn(c, questions[turn], turn, s);
        if answer.None? {
          RaisedStays(c, questions, last0, turn + 1);
          return None;
        }
        results := results + [answer.value];
        if lastCachePrefix.Some? {
          cached := cached + [lastCachePrefix.value];
        }
      }
      assert questions[..|questions|] == questions;
      return Some(results);
    }

    /** The loop over the examples: each session is played and its records are flushed to the
        trace; a raise ends the run with that session's records still in the object. */
    method RunExamples(examples: seq<Example>) returns (trace: seq<Record>, raised: bool)
      requires blockSize != 0
      modifies this
      ensures var p := PlayAll(blockSize, examples, old(traceRecords), old(lastCachePrefix));
              && trace == p.trace && traceRecords == p.left && raised == p.raised
              && lastCachePrefix == p.last
      ensures requestCounter == old(requestCounter) - |old(traceRecords)| + |trace| + |traceRecords|
    {
      hide Play;
      ghost var held, last0 := traceRecords, lastCachePrefix;
      trace := [];
      for i: nat := 0 to |examples|
        invariant PlayAll(blockSize, examples[..i], held, last0) == Pass(trace, traceRecords, lastCachePrefix, false)
        invariant requestCounter == old(requestCounter) - |held| + |trace| + |traceRecords|
      {
        var e := examples[i];
        assert examples[..i + 1][..i] == examples[..i];
        var answers := TestScdq(e.context, e.questions, e.runs);
        if answers.None? {
          RunStays(blockSize, examples, held, last0, i + 1);
          return trace, true;
        }
        var records := PopRecords();
        trace := trace + records;
      }
      assert examples[..|examples|] == examples;
      return trace, false;
    }

    /** The run and its summary: for every engine and all examples with a context, at least
        one token is recomputed for each successful request in the trace, and the rates are
        rates. */
    method RunAndSummarize(examples: seq<Example>) returns (trace: seq<Record>, summary: Option<Summary>)
      requires blockSize != 0 && HonestRecords(traceRecords)
      requires forall e | e in examples :: e.context != []
      modifies this
      ensures trace == PlayAll(blockSize, examples, old(traceRecords), old(lastCachePrefix)).trace
      ensures summary.None? <==> PlayAll(blockSize, examples, old(traceRecords), old(lastCachePrefix)).raised
      ensures HonestRecords(traceRecords)
      ensures summary.Some? ==>
                var lines, s := SuccessLines(trace), summary.value;
                && s.planned == Total(lines, PlannedOf) && s.covered == Total(lines, CoveredOf)
                && s.beyond == Total(lines, BeyondOf) && s.beyondRequests == Total(lines, IsBeyond)
                && IsRate(s.hitRate, s.cachedTokens, s.promptTokens) && IsRate(s.coverageRate, s.covered, s.planned)
                && s.covered + s.beyond == s.cachedTokens == Total(lines, CachedOf)
                && s.recomputed + s.cachedTokens == s.promptTokens == Total(lines, PromptOf)
                && s.recomputed >= |lines| && 0 <= s.covered <= s.planned
                && 0.0 <= s.coverageRate <= 1.0
                && 0.0 <= s.hitRate && (lines != [] ==> s.hitRate < 1.0)
    {
      hide PlayAll, Honest, Total;
      TraceIsHonest(blockSize, examples, traceRecords, lastCachePrefix);
      var raised;
      trace, raised := RunExamples(examples);
      if raised {
        return trace, None;
      }
      HonestLines(trace);
      var s := Summarize(SuccessLines(trace));
      return trace, Some(s);
    }
  }

  lemma {:induction false} NotPlayed(c: Setting, questions: seq<seq<int>>, last: Option<seq<int>>)
    requires c.blockSize != 0
    ensures Play(c, questions[..0], last) == Session([], last, [], false)
  {
  }

  lemma {:induction false} PlayNext(c: Setting, questions: seq<seq<int>>, last: Option<seq<int>>, n: nat)
    requires c.blockSize != 0 && n < |questions| && !Play(c, questions[..n], last).raised
    ensures Play(c, questions[..n + 1], last) == PlayTurn(c, questions[n], n, Play(c, questions[..n], last))
  {
    assert questions[..n + 1][..n] == questions[..n];
  }

  lemma {:induction false} RaisedStays(c: Setting, questions: seq<seq<int>>, last: Option<seq<int>>, n: nat)
    requires c.blockSize != 0 && n <= |questions| && Play(c, questions[..n], last).raised
    ensures Play(c, questions, last) == Play(c, questions[..n], last)
  {
    if n == |questions| {
      assert questions[..n] == questions;
    } else {
      assert questions[..|questions| - 1][..n] == questions[..n];
      RaisedStays(c, questions[..|questions| - 1], last, n);
    }
  }

  lemma {:induction false} RunStays(blockSize: int, examples: seq<Example>, held: seq<Record>,
                                    last: Option<seq<int>>, n: nat)
    requires blockSize != 0 && n <= |examples| && PlayAll(blockSize, examples[..n], held, last).raised
    ensures PlayAll(blockSize, examples, held, last) == PlayAll(blockSize, examples[..n], held, last)
  {
    hide SessionOf;
    if n == |examples| {
      assert examples[..n] == examples;
    } else {
      assert examples[..|examples| - 1][..n] == examples[..n];
      RunStays(blockSize, examples[..|examples| - 1], held, last, n);
    }
  }
}
