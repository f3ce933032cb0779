/** The chain index on several ranks: rank 0 plans with all tokens, the other ranks follow
    with digests, and none of them ever diverges. */
module ChainIndexRanks {
  import opened ChainIndex
  import opened ChainIndexTheorems
  import opened ChainIndexPlans
  import opened Wrappers

  // ----- Ranks in step -----

  function Bare<D>(r: Record<D>): Record<D> { r.(tokens := []) }

  function BareStats(t: Stats): Stats { t.(mismatch := 0, busy := 0) }

  /** The same index, but for the token history and the counters of refused requests, which
      are rank 0's. */
  ghost predicate InStep<D>(s: Index<D>, t: Index<D>) {
    && s.records.Keys == t.records.Keys
    && (forall id | id in s.records :: Bare(s.records[id]) == Bare(t.records[id]))
    && s.owners == t.owners && s.tombstones == t.tombstones && s.clock == t.clock
    && BareStats(s.stats) == BareStats(t.stats)
  }

  lemma {:induction false} DropInStep<D>(l: Limits, s: Index<D>, t: Index<D>, id: string)
    requires InStep(s, t) && id in s.records
    ensures InStep(Drop(l, s, id), Drop(l, t, id))
  {
    assert Bare(s.records[id]) == Bare(t.records[id]);
  }

  lemma {:induction false} EvictInStep<D>(l: Limits, s: Index<D>, t: Index<D>, id: string)
    requires InStep(s, t)
    ensures InStep(Evict(l, s, id).0, Evict(l, t, id).0)
    ensures Evict(l, s, id).1.Success? <==> Evict(l, t, id).1.Success?
    ensures Evict(l, s, id).1.Failure? ==> Evict(l, s, id).1.error == Evict(l, t, id).1.error
  {
    if id in s.records {
      assert Bare(s.records[id]) == Bare(t.records[id]);
      DropInStep(l, s, t, id);
    }
  }

  lemma {:induction false} EvictAllInStep<D>(l: Limits, s: Index<D>, t: Index<D>, ids: seq<string>)
    requires InStep(s, t)
    ensures InStep(EvictAll(l, s, ids).0, EvictAll(l, t, ids).0)
    ensures EvictAll(l, s, ids).1 == EvictAll(l, t, ids).1
    decreases |ids|
  {
    if ids != [] {
      hide InStep, Evict;
      EvictInStep(l, s, t, ids[0]);
      if Evict(l, s, ids[0]).1.Success? {
        EvictAllInStep(l, Evict(l, s, ids[0]).0, Evict(l, t, ids[0]).0, ids[1..]);
      }
    }
  }

  lemma {:induction false} CreateInStep<D>(s: Index<D>, t: Index<D>, p: Plan, fingerprint: D)
    requires InStep(s, t)
    ensures InStep(Create(s, p, fingerprint).0, Create(t, p, fingerprint).0)
  {
  }

  lemma {:induction false} ResumeInStep<D>(s: Index<D>, t: Index<D>, p: Plan)
    requires InStep(s, t)
    ensures InStep(Resume(s, p).0, Resume(t, p).0)
  {
    if p.chainId in s.records {
      assert Bare(s.records[p.chainId]) == Bare(t.records[p.chainId]);
    }
  }

  lemma {:induction false} ApplyInStep<D>(l: Limits, s: Index<D>, t: Index<D>, p: Plan, fingerprint: D)
    requires InStep(s, t)
    ensures InStep(ApplyAdmission(l, s, p, fingerprint).0, ApplyAdmission(l, t, p, fingerprint).0)
  {
    hide InStep, EvictAll, Create, Resume;
    EvictAllInStep(l, s, t, p.victims);
    CreateInStep(EvictAll(l, s, p.victims).0, EvictAll(l, t, p.victims).0, p, fingerprint);
    ResumeInStep(EvictAll(l, s, p.victims).0, EvictAll(l, t, p.victims).0, p);
  }

  lemma {:induction false} FinishInStep<D>(s: Index<D>, t: Index<D>, id: string, seqId: int, digest: D, count: int,
                                           slots: seq<nat>)
    requires InStep(s, t)
    ensures InStep(FinishValues(s, id, seqId, digest, count, slots).0, FinishValues(t, id, seqId, digest, count, slots).0)
  {
    if id in s.records {
      assert Bare(s.records[id]) == Bare(t.records[id]);
    }
  }

  lemma {:induction false} InvalidateInStep<D>(l: Limits, s: Index<D>, t: Index<D>, id: string)
    requires InStep(s, t)
    ensures InStep(Invalidate(l, s, id).0, Invalidate(l, t, id).0)
  {
    if id in s.records {
      DropInStep(l, s, t, id);
    }
  }

  /** Remembering tokens is invisible to the other ranks. */
  lemma {:induction false} RememberInStep<D>(hash: seq<int> -> D, l: Limits, s: Index<D>, t: Index<D>, id: string,
                                             seqId: int, tokens: seq<int>, count: int)
    requires InStep(s, t)
    ensures InStep(Remember(hash, l, s, id, seqId, tokens, count).0, t)
  {
  }

  lemma {:induction false} CandidatesInStep<D>(s: Index<D>, t: Index<D>, forChain: string, ids: seq<string>)
    requires InStep(s, t) && IsCandidates(s, forChain, ids)
    ensures IsCandidates(t, forChain, ids)
  {
    assert forall id | id in s.records :: Bare(s.records[id]) == Bare(t.records[id]);
    assert forall id :: Evictable(s, id, forChain) <==> Evictable(t, id, forChain);
  }

  lemma {:induction false} VictimsInStep<D>(s: Index<D>, t: Index<D>, ids: seq<string>, slots: seq<nat>, rows: nat)
    requires InStep(s, t) && forall id | id in ids :: id in s.records
    ensures forall id | id in ids :: id in t.records
    ensures VictimCount(s, ids, slots, rows) == VictimCount(t, ids, slots, rows)
    ensures Remaining(s, ids, slots, rows) == Remaining(t, ids, slots, rows)
  {
    if ids != [] {
      var r, u := s.records[ids[0]], t.records[ids[0]];
      assert Bare(r) == Bare(u);
      VictimsInStep(s, t, ids[1..], Reduced(slots, r.slots), AtLeastZero(rows - r.rows));
    }
  }

  /** The digest of the prefix that a plan reuses is all the other ranks need: they arrive at
      the same plan. */
  lemma {:induction false} PlanInStep<D>(hash: seq<int> -> D, s: Index<D>, t: Index<D>, q: Request<D>, prompt: seq<int>,
                                         ids: seq<string>, p: Plan)
    requires InStep(s, t) && Fresh(hash, s, q, Tokens(prompt), ids, p)
    ensures p.reused <= |prompt| && p.inputCount == |prompt|
    ensures Fresh(hash, t, q, Digest(|prompt|, hash(prompt[..p.reused])), ids, p)
  {
    hide VictimCount, Remaining;
    FreshPlanFacts(hash, s, q, Tokens(prompt), ids, p);
    CandidatesInStep(s, t, q.chainId, ids);
    var slots, rows := Floors(q.needSlots), AtLeastZero(q.needRows);
    VictimsInStep(s, t, ids, slots, rows);
    VictimsInStep(s, t, ids[..VictimCount(s, ids, slots, rows)], slots, rows);
    if q.chainId in s.records {
      assert Bare(s.records[q.chainId]) == Bare(t.records[q.chainId]);
    }
  }

  // ----- The engine's protocol -----

  /** What reaches rank 0: a request with its tokens, the end of a turn, an invalidation.
      The physical demands of a request are the same on every rank. */
  datatype Turn<D> =
    | Admit(request: Request<D>, prompt: seq<int>, candidates: seq<string>)
    | End(id: string, seqId: int, tokens: seq<int>, count: nat, slots: seq<nat>)
    | Discard(id: string)

  /** What rank 0 sends to every rank. */
  datatype Command<D> =
    | CarryOut(plan: Plan, request: Request<D>, count: nat, prefix: D, candidates: seq<string>)
    | EndTurn(id: string, seqId: int, digest: D, count: nat, slots: seq<nat>)
    | Forget(id: string)
    | Nothing

  ghost predicate Legal<D>(s: Index<D>, turn: Turn<D>) {
    match turn
    case Admit(q, _, ids) => IsCandidates(s, q.chainId, ids)
    case End(_, _, tokens, count, _) => count <= |tokens|
    case Discard(_) => true
  }

  /** Rank 0: a resumed chain must bring at least one new token. */
  ghost function Lead<D>(hash: seq<int> -> D, l: Limits, s: Index<D>, turn: Turn<D>): (Index<D>, Command<D>)
    requires Legal(s, turn)
  {
    match turn
    case Admit(q, prompt, ids) =>
      var (s1, outcome) := PlanAdmission(hash, s, q, Tokens(prompt), ids);
      if outcome.Failure? || |prompt| < outcome.value.reused
         || (outcome.value.resumed && |prompt| <= outcome.value.reused) then (s1, Nothing)
      else
        var p := outcome.value;
        (ApplyAdmission(l, s1, p, q.fingerprint).0, CarryOut(p, q, |prompt|, hash(prompt[..p.reused]), ids))
    case End(id, seqId, tokens, count, slots) =>
      var digest := hash(tokens[..count]);
      var (s1, outcome) := FinishValues(s, id, seqId, digest, count, slots);
      (if outcome.Failure? then s1 else Remember(hash, l, s1, id, seqId, tokens, count).0,
       EndTurn(id, seqId, digest, count, slots))
    case Discard(id) => (Invalidate(l, s, id).0, Forget(id))
  }

  /** Another rank makes its own plan first and raises if that differs; `None` then. */
  ghost function Follow<D>(hash: seq<int> -> D, l: Limits, t: Index<D>, c: Command<D>): Option<Index<D>> {
    match c
    case CarryOut(p, q, count, prefix, ids) =>
      if !IsCandidates(t, q.chainId, ids) || PlanAdmission(hash, t, q, Digest(count, prefix), ids).1 != Success(p) then None
      else Some(ApplyAdmission(l, t, p, q.fingerprint).0)
    case EndTurn(id, seqId, digest, count, slots) => Some(FinishValues(t, id, seqId, digest, count, slots).0)
    case Forget(id) => Some(Invalidate(l, t, id).0)
    case Nothing => Some(t)
  }

  /** A request leads to a plan for all ranks exactly if it can be planned and, on a chain that
      is resumed, brings a token beyond those reused; otherwise the records stay as they are. */
  lemma {:induction false} LeadAdmitsIff<D>(hash: seq<int> -> D, l: Limits, s: Index<D>, turn: Turn<D>)
    requires turn.Admit? && Legal(s, turn)
    ensures forall id | id in turn.candidates :: id in s.records
    ensures var outcome := PlanAdmission(hash, s, turn.request, Tokens(turn.prompt), turn.candidates).1;
            var (t, command) := Lead(hash, l, s, turn);
            && (command != Nothing <==> outcome.Success? && (outcome.value.resumed ==> |turn.prompt| > outcome.value.reused))
            && (command != Nothing ==>
                  && outcome.value.reused <= |turn.prompt|
                  && command == CarryOut(outcome.value, turn.request, |turn.prompt|,
                                         hash(turn.prompt[..outcome.value.reused]), turn.candidates)
                  && t == ApplyAdmission(l, s, outcome.value, turn.request.fingerprint).0)
            && (command == Nothing ==> t.records == s.records && t.tombstones == s.tombstones && t.clock == s.clock)
  {
    hide IsCandidates, ApplyAdmission, PlanAdmission;
    CandidatesResident(s, turn.request.chainId, turn.candidates);
    PlanLeavesRecords(hash, s, turn.request, Tokens(turn.prompt), turn.candidates);
    PlanFields(hash, s, turn.request, Tokens(turn.prompt), turn.candidates);
    var outcome := PlanAdmission(hash, s, turn.request, Tokens(turn.prompt), turn.candidates).1;
    if outcome.Success? && outcome.value.resumed {
      FreshHere(hash, s, turn, outcome.value);
      FreshPlanFacts(hash, s, turn.request, Tokens(turn.prompt), turn.candidates, outcome.value);
    }
  }

  lemma {:induction false} FreshHere<D>(hash: seq<int> -> D, s: Index<D>, turn: Turn<D>, p: Plan)
    requires turn.Admit? && IsCandidates(s, turn.request.chainId, turn.candidates)
    requires forall id | id in turn.candidates :: id in s.records
    requires PlanAdmission(hash, s, turn.request, Tokens(turn.prompt), turn.candidates).1 == Success(p)
    ensures Fresh(hash, s, turn.request, Tokens(turn.prompt), turn.candidates, p)
  {
    hide PlanAdmission, IsCandidates;
  }

  /** A rank that carries out a plan has come to the same one itself. */
  lemma {:induction false} FollowValidates<D>(hash: seq<int> -> D, l: Limits, t: Index<D>, p: Plan, q: Request<D>,
                                              count: nat, prefix: D, ids: seq<string>)
    ensures Follow(hash, l, t, CarryOut(p, q, count, prefix, ids)).Some? <==> Fresh(hash, t, q, Digest(count, prefix), ids, p)
    ensures Follow(hash, l, t, CarryOut(p, q, count, prefix, ids)).Some? ==>
              Follow(hash, l, t, CarryOut(p, q, count, prefix, ids)).value == ApplyAdmission(l, t, p, q.fingerprint).0
  {
    hide PlanAdmission, ApplyAdmission;
    CandidatesOnly(t, q.chainId, ids);
  }

  lemma {:induction false} CandidatesOnly<D>(s: Index<D>, forChain: string, ids: seq<string>)
    ensures IsCandidates(s, forChain, ids) ==> forall id | id in ids :: id in s.records
  {
  }

  /** Whatever rank 0 does, a rank in step with it validates the plan and stays in step. */
  lemma {:induction false} FollowsLead<D>(hash: seq<int> -> D, l: Limits, s: Index<D>, t: Index<D>, turn: Turn<D>)
    requires InStep(s, t) && Legal(s, turn)
    ensures var (s', command) := Lead(hash, l, s, turn);
            Follow(hash, l, t, command).Some? && InStep(s', Follow(hash, l, t, command).value)
  {
    hide PlanAdmission, ApplyAdmission, FinishValues, Remember, Invalidate, InStep, IsCandidates;
    match turn
    case Admit(q, prompt, ids) =>
      CandidatesResident(s, q.chainId, ids);
      var (s1, outcome) := PlanAdmission(hash, s, q, Tokens(prompt), ids);
      PlanCounts(hash, s, t, q, Tokens(prompt), ids);
      if outcome.Success? {
        PlanInStep(hash, s, t, q, prompt, ids, outcome.value);
        ApplyInStep(l, s1, t, outcome.value, q.fingerprint);
      }
    case End(id, seqId, tokens, count, slots) =>
      var digest := hash(tokens[..count]);
      FinishInStep(s, t, id, seqId, digest, count, slots);
      RememberInStep(hash, l, FinishValues(s, id, seqId, digest, count, slots).0,
                     FinishValues(t, id, seqId, digest, count, slots).0, id, seqId, tokens, count);
    case Discard(id) => InvalidateInStep(l, s, t, id);
  }

  lemma {:induction false} CandidatesResident<D>(s: Index<D>, forChain: string, ids: seq<string>)
    requires IsCandidates(s, forChain, ids)
    ensures forall id | id in ids :: id in s.records
  {
  }

  /** Planning changes counters only. */
  lemma {:induction false} PlanCounts<D>(hash: seq<int> -> D, s: Index<D>, t: Index<D>, q: Request<D>, e: Evidence<D>,
                                         ids: seq<string>)
    requires InStep(s, t) && IsCandidates(s, q.chainId, ids)
    ensures InStep(PlanAdmission(hash, s, q, e, ids).0, t)
  {
    hide Refusal, VictimCount, Covers;
  }

  /** The states of rank 0 over a run. */
  ghost predicate Leads<D>(hash: seq<int> -> D, l: Limits, states: seq<Index<D>>, turns: seq<Turn<D>>) {
    && |states| == |turns| + 1
    && forall i | 0 <= i < |turns| :: Legal(states[i], turns[i]) && states[i + 1] == Lead(hash, l, states[i], turns[i]).0
  }

  /** Another rank after the commands of the first `n` turns; `None` once it has raised. */
  ghost function Followed<D>(hash: seq<int> -> D, l: Limits, t: Index<D>, states: seq<Index<D>>, turns: seq<Turn<D>>,
                                 n: nat): Option<Index<D>>
    requires n <= |turns| && Leads(hash, l, states, turns)
  {
    if n == 0 then Some(t)
    else
      var before := Followed(hash, l, t, states, turns, n - 1);
      if before.None? then None
      else Follow(hash, l, before.value, Lead(hash, l, states[n - 1], turns[n - 1]).1)
  }

  /** Over every run no rank ever raises for a plan that diverged, and all stay in step. */
  lemma {:induction false} RanksStayInStep<D>(hash: seq<int> -> D, l: Limits, t: Index<D>, states: seq<Index<D>>,
                                              turns: seq<Turn<D>>, n: nat)
    requires n <= |turns| && Leads(hash, l, states, turns) && InStep(states[0], t)
    ensures Followed(hash, l, t, states, turns, n).Some?
    ensures InStep(states[n], Followed(hash, l, t, states, turns, n).value)
  {
    hide InStep, Lead, Follow;
    if n > 0 {
      RanksStayInStep(hash, l, t, states, turns, n - 1);
      FollowsLead(hash, l, states[n - 1], Followed(hash, l, t, states, turns, n - 1).value, turns[n - 1]);
    }
  }

  // ----- What a resumed chain reuses -----

  /** The remembered tokens are those behind the digest. */
  ghost predicate Synced<D>(hash: seq<int> -> D, r: Record<D>) {
    r.digest.Some? ==> r.processed <= |r.tokens| && r.digest.value == hash(r.tokens[..r.processed])
  }

  ghost predicate AllSynced<D>(hash: seq<int> -> D, s: Index<D>) {
    forall id | id in s.records :: Synced(hash, s.records[id])
  }

  /** The tokens a resumed request reuses are exactly the ones the chain has processed, unless
      the digest collides on the two. */
  lemma {:induction false} ResumeIsSound<D>(hash: seq<int> -> D, s: Index<D>, q: Request<D>, prompt: seq<int>,
                                            ids: seq<string>, p: Plan)
    requires Fresh(hash, s, q, Tokens(prompt), ids, p) && p.resumed
    requires q.chainId in s.records ==> Synced(hash, s.records[q.chainId])
    ensures q.chainId in s.records && p.reused <= |prompt| && p.reused <= |s.records[q.chainId].tokens|
    ensures var processed := s.records[q.chainId].tokens[..p.reused];
            prompt[..p.reused] == processed || hash(prompt[..p.reused]) == hash(processed)
    ensures var processed := s.records[q.chainId].tokens[..p.reused];
            (forall x, y | hash(x) == hash(y) :: x == y) ==> prompt[..p.reused] == processed
  {
    FreshPlanFacts(hash, s, q, Tokens(prompt), ids, p);
  }

  // ----- The history fits -----

  ghost predicate ShortHistories<D>(s: Index<D>, longest: nat) {
    forall id | id in s.records :: |s.records[id].tokens| <= longest
  }

  lemma {:induction false} TotalAtMost<D>(records: map<string, Record<D>>, longest: nat)
    requires forall id | id in records :: |records[id].tokens| <= longest
    ensures Total(records) <= |records| * longest
    decreases |records|
  {
    if records != map[] {
      var id :| id in records;
      TotalAt(records, id);
      SmallerMap(records, id);
      TotalAtMost(records - {id}, longest);
      OneLess(|records|, longest);
    }
  }

  lemma {:induction false} OneLess(n: nat, longest: nat)
    requires n > 0
    ensures (n - 1) * longest + longest == n * longest
  {
  }

  lemma {:induction false} MoreRows(n: nat, rows: nat, longest: nat)
    requires n <= rows
    ensures n * longest <= rows * longest
  {
  }

  /** With room for `rows` sequences of the longest length, at most `rows` chains and no longer
      sequence, remembering tokens never fails for want of capacity. */
  lemma {:induction false} HistoryFits<D>(l: Limits, s: Index<D>, rows: nat, longest: nat, id: string, tokens: seq<int>,
                                          count: int)
    requires Inv(l, s) && l.history == Some(longest * rows)
    requires ShortHistories(s, longest) && |s.records| <= rows && id in s.records && |tokens| <= longest
    ensures HistoryError(l, s, s.records[id], tokens, count) != Some(NoCapacity)
  {
    TotalAt(s.records, id);
    SmallerMap(s.records, id);
    TotalAtMost(s.records - {id}, longest);
    OneLess(|s.records|, longest);
    MoreRows(|s.records|, rows, longest);
  }

  lemma {:induction false} AdmitSynced<D>(hash: seq<int> -> D, l: Limits, s: Index<D>, longest: nat, turn: Turn<D>)
    requires Inv(l, s) && AllSynced(hash, s) && ShortHistories(s, longest)
    requires turn.Admit? && Legal(s, turn)
    ensures AllSynced(hash, Lead(hash, l, s, turn).0) && ShortHistories(Lead(hash, l, s, turn).0, longest)
  {
    hide Inv, PlanAdmission, ApplyAdmission, IsCandidates;
    var q, e, ids := turn.request, Tokens(turn.prompt), turn.candidates;
    CandidatesResident(s, q.chainId, ids);
    var (s1, outcome) := PlanAdmission(hash, s, q, e, ids);
    PlanLeavesRecords(hash, s, q, e, ids);
    if outcome.Success? {
      var p := outcome.value;
      FreshPlanFacts(hash, s, q, e, ids, p);
      FreshPlanApplies(hash, l, s, q, e, ids, p);
      AppliedOrEvicted(l, s, p, q.fingerprint);
    }
  }

  lemma {:induction false} PlanLeavesRecords<D>(hash: seq<int> -> D, s: Index<D>, q: Request<D>, e: Evidence<D>,
                                                ids: seq<string>)
    requires forall id | id in ids :: id in s.records
    ensures PlanAdmission(hash, s, q, e, ids).0.records == s.records
    ensures PlanAdmission(hash, s, q, e, ids).1.Success? ==> PlanAdmission(hash, s, q, e, ids).0 == s
  {
    hide Refusal, VictimCount, Covers;
  }

  lemma {:induction false} AppliedOrEvicted<D>(l: Limits, s: Index<D>, p: Plan, fingerprint: D)
    requires Inv(l, s) && AllIdle(s, p.victims)
    ensures var (t, outcome) := ApplyAdmission(l, s, p, fingerprint);
            && (outcome.Failure? ==> t.records == s.records - IdSet(p.victims))
            && (outcome.Success? && !p.resumed ==> outcome.value.digest == None && outcome.value.tokens == [])
  {
    hide Inv, EvictAll;
    EvictAllIs(l, s, p.victims);
  }

  lemma {:induction false} DiscardSynced<D>(hash: seq<int> -> D, l: Limits, s: Index<D>, longest: nat, turn: Turn<D>)
    requires AllSynced(hash, s) && ShortHistories(s, longest) && turn.Discard?
    ensures AllSynced(hash, Lead(hash, l, s, turn).0) && ShortHistories(Lead(hash, l, s, turn).0, longest)
  {
  }

  /** Within those bounds rank 0 can, after every turn, answer for every chain what tokens it
      has processed. */
  lemma {:induction false} LeadStaysSynced<D>(hash: seq<int> -> D, l: Limits, s: Index<D>, rows: nat, longest: nat,
                                              turn: Turn<D>)
    requires Inv(l, s) && l.history == Some(longest * rows)
    requires AllSynced(hash, s) && ShortHistories(s, longest) && |s.records| <= rows
    requires Legal(s, turn) && (turn.End? ==> |turn.tokens| <= longest && Storable(turn.tokens))
    ensures AllSynced(hash, Lead(hash, l, s, turn).0) && ShortHistories(Lead(hash, l, s, turn).0, longest)
  {
    hide *;
    match turn
    case Admit(_, _, _) => AdmitSynced(hash, l, s, longest, turn);
    case End(_, _, _, _, _) => EndSynced(hash, l, s, rows, longest, turn);
    case Discard(_) => DiscardSynced(hash, l, s, longest, turn);
  }

  lemma {:induction false} EndSynced<D>(hash: seq<int> -> D, l: Limits, s: Index<D>, rows: nat, longest: nat,
                                        turn: Turn<D>)
    requires Inv(l, s) && l.history == Some(longest * rows)
    requires AllSynced(hash, s) && ShortHistories(s, longest) && |s.records| <= rows
    requires turn.End? && Legal(s, turn) && |turn.tokens| <= longest && Storable(turn.tokens)
    ensures AllSynced(hash, Lead(hash, l, s, turn).0) && ShortHistories(Lead(hash, l, s, turn).0, longest)
  {
    hide *;
    EndIs(hash, l, s, turn);
    var digest := hash(turn.tokens[..turn.count]);
    var (s1, outcome) := FinishValues(s, turn.id, turn.seqId, digest, turn.count, turn.slots);
    FinishedTurn(l, s, turn.id, turn.seqId, digest, turn.count, turn.slots, longest);
    if outcome.Success? {
      HistoryFits(l, s1, rows, longest, turn.id, turn.tokens, turn.count);
      Remembered(hash, l, s, s1, turn.id, turn.seqId, turn.tokens, turn.count, longest);
    }
  }

  lemma {:induction false} EndIs<D>(hash: seq<int> -> D, l: Limits, s: Index<D>, turn: Turn<D>)
    requires turn.End? && Legal(s, turn)
    ensures turn.count <= |turn.tokens|
    ensures var digest := hash(turn.tokens[..turn.count]);
            var (s1, outcome) := FinishValues(s, turn.id, turn.seqId, digest, turn.count, turn.slots);
            Lead(hash, l, s, turn).0 ==
            if outcome.Failure? then s1 else Remember(hash, l, s1, turn.id, turn.seqId, turn.tokens, turn.count).0
  {
  }

  /** Ending a turn changes one record and leaves its tokens to be remembered. */
  lemma {:induction false} FinishedTurn<D>(l: Limits, s: Index<D>, id: string, seqId: int, digest: D, count: nat,
                                           slots: seq<nat>, longest: nat)
    requires Inv(l, s) && ShortHistories(s, longest)
    ensures var (s1, outcome) := FinishValues(s, id, seqId, digest, count, slots);
            && Inv(l, s1) && ShortHistories(s1, longest)
            && (outcome.Failure? ==> s1 == s)
            && (outcome.Success? ==>
                  && id in s.records && s1.records == s.records[id := s1.records[id]]
                  && |s1.records| == |s.records|
                  && s1.records[id].seqId == seqId && s1.records[id].state.Idle?
                  && s1.records[id].processed == count && s1.records[id].digest == Some(digest))
  {
    hide Inv;
    if id in s.records && s.records[id].seqId == seqId {
      FinishDigestKeeps(l, s, id, digest, count, slots, 1);
      LargerMap(s.records, id, FinishedRecord(s.records[id], digest, count, slots, 1, s.clock + 1));
    }
  }

  lemma {:induction false} Remembered<D>(hash: seq<int> -> D, l: Limits, s: Index<D>, s1: Index<D>, id: string,
                                         seqId: int, tokens: seq<int>, count: nat, longest: nat)
    requires AllSynced(hash, s) && ShortHistories(s1, longest) && |tokens| <= longest
    requires id in s1.records && s1.records == s.records[id := s1.records[id]]
    requires s1.records[id].seqId == seqId && s1.records[id].state.Idle?
    requires count <= |tokens| && Storable(tokens)
    requires s1.records[id].processed == count && s1.records[id].digest == Some(hash(tokens[..count]))
    requires HistoryError(l, s1, s1.records[id], tokens, count) != Some(NoCapacity)
    ensures var t := Remember(hash, l, s1, id, seqId, tokens, count).0;
            AllSynced(hash, t) && ShortHistories(t, longest)
  {
  }
}
