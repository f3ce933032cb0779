/** Whole runs of rank 0, from the empty index: within the bounds the engine is configured
    with, the token history never runs out, rank 0 knows the tokens behind every digest, and
    a resumed chain reuses exactly the tokens of the last turn that was ended on it. */
module ChainIndexResume {
  import opened ChainIndex
  import opened ChainIndexTheorems
  import opened ChainIndexPlans
  import opened ChainIndexRanks
  import opened Sequences
  import opened Wrappers

  /** The bounds.  The cache manager has `rows` rows and every resident chain takes one, so a
      new chain lacks a row as soon as all are taken; sequences are no longer than `longest`
      and consist of 32-bit tokens. */
  ghost predicate WithinBounds<D>(s: Index<D>, turn: Turn<D>, rows: nat, longest: nat) {
    match turn
    case Admit(q, _, _) => q.chainId in s.records || q.needRows >= |s.records| + 1 - rows
    case End(_, _, tokens, _, _) => |tokens| <= longest && Storable(tokens)
    case Discard(_) => true
  }

  ghost predicate BoundedRun<D>(hash: seq<int> -> D, l: Limits, states: seq<Index<D>>, turns: seq<Turn<D>>,
                                rows: nat, longest: nat)
  {
    && Leads(hash, l, states, turns) && states[0] == Empty()
    && l.history == Some(longest * rows)
    && forall i | 0 <= i < |turns| :: WithinBounds(states[i], turns[i], rows, longest)
  }

  ghost predicate OneRowEach<D>(s: Index<D>) {
    forall id | id in s.records :: s.records[id].rows == 1
  }

  ghost predicate Fits<D>(hash: seq<int> -> D, l: Limits, s: Index<D>, rows: nat, longest: nat) {
    && Inv(l, s) && AllSynced(hash, s) && ShortHistories(s, longest)
    && OneRowEach(s) && |s.records| <= rows
  }

  /** What a chain has processed and remembers. */
  ghost predicate SameBoundary<D>(r: Record<D>, u: Record<D>) {
    r.digest == u.digest && r.processed == u.processed && r.tokens == u.tokens && r.rows == u.rows
  }

  /** Every chain has the boundary it had before, or is new. */
  ghost predicate Inherits<D>(s: Index<D>, t: Index<D>) {
    forall id | id in t.records ::
      if id in s.records then SameBoundary(t.records[id], s.records[id])
      else t.records[id].digest == None && t.records[id].tokens == [] && t.records[id].rows == 1
  }

  // ----- Admissions -----

  /** What carrying out a plan does to the records. */
  lemma {:induction false} AppliedRecords<D>(l: Limits, s: Index<D>, p: Plan, fingerprint: D)
    requires Inv(l, s) && AllIdle(s, p.victims) && p.chainId !in p.victims
    requires p.resumed <==> p.chainId in s.records
    ensures var (t, outcome) := ApplyAdmission(l, s, p, fingerprint);
            && (outcome.Failure? ==> t.records == s.records - IdSet(p.victims))
            && (outcome.Success? ==>
                  && t.records == (s.records - IdSet(p.victims))[p.chainId := outcome.value]
                  && (p.resumed ==> SameBoundary(outcome.value, s.records[p.chainId]))
                  && (!p.resumed ==> outcome.value.digest == None && outcome.value.tokens == [] && outcome.value.rows == 1))
  {
    hide Inv, EvictAll;
    EvictAllIs(l, s, p.victims);
  }

  lemma {:induction false} AppliedInherits<D>(l: Limits, s: Index<D>, p: Plan, fingerprint: D)
    requires Inv(l, s) && AllIdle(s, p.victims) && p.chainId !in p.victims
    requires p.resumed <==> p.chainId in s.records
    ensures Inherits(s, ApplyAdmission(l, s, p, fingerprint).0)
  {
    hide Inv, ApplyAdmission, AllIdle, SameBoundary;
    AppliedRecords(l, s, p, fingerprint);
    SameAsItself(s);
  }

  lemma {:induction false} SameAsItself<D>(s: Index<D>)
    ensures forall id | id in s.records :: SameBoundary(s.records[id], s.records[id])
  {
  }

  lemma {:induction false} FreedRowsAreVictims<D>(s: Index<D>, ids: seq<string>)
    requires OneRowEach(s) && forall id | id in ids :: id in s.records
    ensures FreedRows(s, ids) == |ids|
  {
    if ids != [] {
      FreedRowsAreVictims(s, ids[1..]);
    }
  }

  lemma {:induction false} IdSetSize(ids: seq<string>)
    requires NoDuplicates(ids)
    ensures |IdSet(ids)| == |ids|
  {
    if ids != [] {
      var n := |ids| - 1;
      IdSetSize(ids[..n]);
      assert ids == ids[..n] + [ids[n]];
      assert IdSet(ids) == IdSet(ids[..n]) + {ids[n]};
    }
  }

  lemma {:induction false} RecordsLeft<D>(s: Index<D>, ids: seq<string>)
    requires AllIdle(s, ids)
    ensures |s.records - IdSet(ids)| == |s.records| - |ids|
  {
    IdSetSize(ids);
    assert IdSet(ids) <= s.records.Keys;
    assert (s.records - IdSet(ids)).Keys == s.records.Keys - IdSet(ids);
    assert |s.records.Keys - IdSet(ids)| == |s.records.Keys| - |IdSet(ids)|;
  }

  /** The victims make room for the row of a new chain. */
  lemma {:induction false} AppliedRows<D>(l: Limits, s: Index<D>, p: Plan, fingerprint: D, rows: nat)
    requires Inv(l, s) && AllIdle(s, p.victims) && p.chainId !in p.victims
    requires p.resumed <==> p.chainId in s.records
    requires |s.records| <= rows && (p.resumed || |p.victims| >= |s.records| + 1 - rows)
    ensures |ApplyAdmission(l, s, p, fingerprint).0.records| <= rows
  {
    hide Inv, ApplyAdmission, AllIdle;
    var (t, outcome) := ApplyAdmission(l, s, p, fingerprint);
    AppliedRecords(l, s, p, fingerprint);
    RecordsLeft(s, p.victims);
    if outcome.Success? {
      LargerMap(s.records - IdSet(p.victims), p.chainId, outcome.value);
    }
  }

  /** A plan for a new chain takes at least as many victims as rows are lacking. */
  lemma {:induction false} PlanFreesRows<D>(hash: seq<int> -> D, s: Index<D>, q: Request<D>, e: Evidence<D>,
                                            ids: seq<string>)
    requires OneRowEach(s) && IsCandidates(s, q.chainId, ids)
    ensures var outcome := PlanAdmission(hash, s, q, e, ids).1;
            outcome.Success? ==> |outcome.value.victims| >= q.needRows
  {
    hide PlanAdmission, Refusal, OneRowEach, IsCandidates;
    CandidatesResident(s, q.chainId, ids);
    PlanIsSparing(hash, s, q, e, ids);
    var outcome := PlanAdmission(hash, s, q, e, ids).1;
    if outcome.Success? {
      FreedRowsAreVictims(s, outcome.value.victims);
    }
  }

  /** What rank 0 does with a request. */
  lemma {:induction false} AdmitIs<D>(hash: seq<int> -> D, l: Limits, s: Index<D>, turn: Turn<D>)
    requires turn.Admit? && Legal(s, turn)
    ensures forall id | id in turn.candidates :: id in s.records
    ensures var (s1, outcome) := PlanAdmission(hash, s, turn.request, Tokens(turn.prompt), turn.candidates);
            var t := Lead(hash, l, s, turn).0;
            && s1.records == s.records
            && (t == s1 || (outcome.Success? && s1 == s
                            && t == ApplyAdmission(l, s, outcome.value, turn.request.fingerprint).0))
  {
    hide IsCandidates, ApplyAdmission, PlanAdmission;
    CandidatesResident(s, turn.request.chainId, turn.candidates);
    PlanLeavesRecords(hash, s, turn.request, Tokens(turn.prompt), turn.candidates);
  }

  lemma {:induction false} AdmitInherits<D>(hash: seq<int> -> D, l: Limits, s: Index<D>, turn: Turn<D>)
    requires Inv(l, s) && turn.Admit? && Legal(s, turn)
    ensures Inherits(s, Lead(hash, l, s, turn).0)
  {
    hide *;
    AdmitIs(hash, l, s, turn);
    var q, ids := turn.request, turn.candidates;
    var (s1, outcome) := PlanAdmission(hash, s, q, Tokens(turn.prompt), ids);
    UnchangedInherits(s, s1);
    if outcome.Success? && s1 == s {
      FreshIs(hash, s, turn, outcome.value);
      FreshPlanFacts(hash, s, q, Tokens(turn.prompt), ids, outcome.value);
      AppliedInherits(l, s, outcome.value, q.fingerprint);
    }
  }

  lemma {:induction false} UnchangedInherits<D>(s: Index<D>, t: Index<D>)
    requires t.records == s.records
    ensures Inherits(s, t)
  {
  }

  lemma {:induction false} FreshIs<D>(hash: seq<int> -> D, s: Index<D>, turn: Turn<D>, p: Plan)
    requires turn.Admit? && Legal(s, turn)
    requires forall id | id in turn.candidates :: id in s.records
    requires PlanAdmission(hash, s, turn.request, Tokens(turn.prompt), turn.candidates).1 == Success(p)
    ensures Fresh(hash, s, turn.request, Tokens(turn.prompt), turn.candidates, p)
    ensures IsCandidates(s, turn.request.chainId, turn.candidates)
  {
    hide PlanAdmission, IsCandidates;
  }

  lemma {:induction false} AdmitRows<D>(hash: seq<int> -> D, l: Limits, s: Index<D>, turn: Turn<D>, rows: nat, longest: nat)
    requires Inv(l, s) && turn.Admit? && Legal(s, turn) && OneRowEach(s)
    requires |s.records| <= rows && WithinBounds(s, turn, rows, longest)
    ensures |Lead(hash, l, s, turn).0.records| <= rows
  {
    hide *;
    AdmitIs(hash, l, s, turn);
    var q, ids := turn.request, turn.candidates;
    var (s1, outcome) := PlanAdmission(hash, s, q, Tokens(turn.prompt), ids);
    if outcome.Success? && s1 == s {
      FreshIs(hash, s, turn, outcome.value);
      FreshPlanFacts(hash, s, q, Tokens(turn.prompt), ids, outcome.value);
      PlanFreesRows(hash, s, q, Tokens(turn.prompt), ids);
      LackOf(s, turn, rows, longest);
      AppliedRows(l, s, outcome.value, q.fingerprint, rows);
    }
  }

  lemma {:induction false} LackOf<D>(s: Index<D>, turn: Turn<D>, rows: nat, longest: nat)
    requires turn.Admit? && WithinBounds(s, turn, rows, longest)
    ensures turn.request.chainId in s.records || turn.request.needRows >= |s.records| + 1 - rows
  {
  }

  // ----- Ends of turns and invalidations -----

  ghost predicate Ends<D>(hash: seq<int> -> D, s: Index<D>, turn: Turn<D>) {
    && turn.End? && turn.count <= |turn.tokens|
    && FinishValues(s, turn.id, turn.seqId, hash(turn.tokens[..turn.count]), turn.count, turn.slots).1.Success?
  }

  /** A turn that ends within the bounds leaves the chain with its tokens remembered; all
      other chains are as they were. */
  lemma {:induction false} EndedChain<D>(hash: seq<int> -> D, l: Limits, s: Index<D>, turn: Turn<D>, rows: nat, longest: nat)
    requires Fits(hash, l, s, rows, longest) && l.history == Some(longest * rows)
    requires turn.End? && Legal(s, turn) && WithinBounds(s, turn, rows, longest)
    ensures var t := Lead(hash, l, s, turn).0;
            if Ends(hash, s, turn) then
              && turn.id in s.records && turn.id in t.records
              && t.records == s.records[turn.id := t.records[turn.id]]
              && t.records[turn.id].tokens == turn.tokens && t.records[turn.id].processed == turn.count
              && t.records[turn.id].digest == Some(hash(turn.tokens[..turn.count])) && t.records[turn.id].rows == 1
            else t == s
  {
    hide *;
    TurnBounds(hash, l, s, turn, rows, longest);
    EndIs(hash, l, s, turn);
    var digest := hash(turn.tokens[..turn.count]);
    var (s1, outcome) := FinishValues(s, turn.id, turn.seqId, digest, turn.count, turn.slots);
    FinishedTurn(l, s, turn.id, turn.seqId, digest, turn.count, turn.slots, longest);
    EndsIf(hash, s, turn);
    if outcome.Success? {
      HistoryFits(l, s1, rows, longest, turn.id, turn.tokens, turn.count);
      FinishedRows(s, turn.id, turn.seqId, digest, turn.count, turn.slots);
      Kept(hash, l, s1, turn.id, turn.seqId, turn.tokens, turn.count);
    }
  }

  lemma {:induction false} EndsIf<D>(hash: seq<int> -> D, s: Index<D>, turn: Turn<D>)
    requires turn.End? && turn.count <= |turn.tokens|
    ensures Ends(hash, s, turn) <==>
            FinishValues(s, turn.id, turn.seqId, hash(turn.tokens[..turn.count]), turn.count, turn.slots).1.Success?
  {
  }

  lemma {:induction false} TurnBounds<D>(hash: seq<int> -> D, l: Limits, s: Index<D>, turn: Turn<D>, rows: nat, longest: nat)
    requires Fits(hash, l, s, rows, longest) && turn.End? && WithinBounds(s, turn, rows, longest)
    ensures Inv(l, s) && ShortHistories(s, longest) && |s.records| <= rows
    ensures |turn.tokens| <= longest && Storable(turn.tokens)
  {
  }

  lemma {:induction false} FinishedRows<D>(s: Index<D>, id: string, seqId: int, digest: D, count: nat, slots: seq<nat>)
    requires FinishValues(s, id, seqId, digest, count, slots).1.Success?
    ensures id in FinishValues(s, id, seqId, digest, count, slots).0.records
    ensures FinishValues(s, id, seqId, digest, count, slots).0.records[id].rows == 1
  {
  }

  /** Nothing stands in the way of remembering the tokens. */
  lemma {:induction false} Kept<D>(hash: seq<int> -> D, l: Limits, s: Index<D>, id: string, seqId: int, tokens: seq<int>,
                                   count: nat)
    requires id in s.records && s.records[id].seqId == seqId && s.records[id].state.Idle?
    requires count <= |tokens| && Storable(tokens) && s.records[id].processed == count
    requires s.records[id].digest == Some(hash(tokens[..count]))
    requires HistoryError(l, s, s.records[id], tokens, count) != Some(NoCapacity)
    ensures var (t, outcome) := Remember(hash, l, s, id, seqId, tokens, count);
            && outcome.Success? && t.records == s.records[id := s.records[id].(tokens := tokens)]
  {
  }

  lemma {:induction false} DiscardInherits<D>(hash: seq<int> -> D, l: Limits, s: Index<D>, turn: Turn<D>)
    requires turn.Discard?
    ensures Inherits(s, Lead(hash, l, s, turn).0)
    ensures |Lead(hash, l, s, turn).0.records| <= |s.records|
  {
    if turn.id in s.records {
      SmallerMap(s.records, turn.id);
    }
  }

  // ----- Whole runs -----

  lemma {:induction false} LeadKeepsInv<D>(hash: seq<int> -> D, l: Limits, s: Index<D>, turn: Turn<D>)
    requires Inv(l, s) && Legal(s, turn)
    ensures Inv(l, Lead(hash, l, s, turn).0)
  {
    hide Inv, PlanAdmission, ApplyAdmission, FinishValues, Remember, Invalidate, IsCandidates;
    match turn
    case Admit(q, prompt, ids) =>
      CandidatesResident(s, q.chainId, ids);
      PlanKeeps(hash, l, s, q, Tokens(prompt), ids);
      var outcome := PlanAdmission(hash, s, q, Tokens(prompt), ids).1;
      if outcome.Success? {
        ApplyKeeps(l, PlanAdmission(hash, s, q, Tokens(prompt), ids).0, outcome.value, q.fingerprint);
      }
    case End(id, seqId, tokens, count, slots) =>
      var digest := hash(tokens[..count]);
      FinishValuesKeeps(l, s, id, seqId, digest, count, slots);
      RememberKeeps(hash, l, FinishValues(s, id, seqId, digest, count, slots).0, id, seqId, tokens, count);
    case Discard(id) => InvalidateKeeps(l, s, id);
  }

  lemma {:induction false} FinishValuesKeeps<D>(l: Limits, s: Index<D>, id: string, seqId: int, digest: D, count: int,
                                                slots: seq<nat>)
    requires Inv(l, s)
    ensures Inv(l, FinishValues(s, id, seqId, digest, count, slots).0)
  {
    hide Inv;
    if id in s.records {
      FinishDigestKeeps(l, s, id, digest, count, slots, 1);
    }
  }

  lemma {:induction false} IsFit<D>(hash: seq<int> -> D, l: Limits, s: Index<D>, rows: nat, longest: nat)
    requires Fits(hash, l, s, rows, longest)
    ensures Inv(l, s) && AllSynced(hash, s) && ShortHistories(s, longest) && OneRowEach(s) && |s.records| <= rows
  {
  }

  lemma {:induction false} InheritsRows<D>(s: Index<D>, t: Index<D>)
    requires OneRowEach(s) && Inherits(s, t)
    ensures OneRowEach(t)
  {
  }

  lemma {:induction false} UpdateRows<D>(s: Index<D>, t: Index<D>, id: string)
    requires OneRowEach(s) && id in s.records && id in t.records && t.records[id].rows == 1
    requires t.records == s.records[id := t.records[id]]
    ensures OneRowEach(t) && |t.records| == |s.records|
  {
    LargerMap(s.records, id, t.records[id]);
  }

  /** Every resident chain goes on taking one row, and there are rows for all. */
  lemma {:induction false} RowsKept<D>(hash: seq<int> -> D, l: Limits, s: Index<D>, turn: Turn<D>, rows: nat, longest: nat)
    requires Fits(hash, l, s, rows, longest) && l.history == Some(longest * rows)
    requires Legal(s, turn) && WithinBounds(s, turn, rows, longest)
    ensures var t := Lead(hash, l, s, turn).0; OneRowEach(t) && |t.records| <= rows
  {
    hide *;
    IsFit(hash, l, s, rows, longest);
    var t := Lead(hash, l, s, turn).0;
    if turn.End? {
      EndedChain(hash, l, s, turn, rows, longest);
      if Ends(hash, s, turn) {
        UpdateRows(s, t, turn.id);
      }
    } else {
      if turn.Admit? {
        AdmitInherits(hash, l, s, turn);
        AdmitRows(hash, l, s, turn, rows, longest);
      } else {
        DiscardInherits(hash, l, s, turn);
      }
      InheritsRows(s, t);
    }
  }

  /** Every turn within the bounds keeps resident chains to the rows there are, histories to
      the longest sequence, and the tokens behind every digest known. */
  lemma {:induction false} FitsKept<D>(hash: seq<int> -> D, l: Limits, s: Index<D>, turn: Turn<D>, rows: nat, longest: nat)
    requires Fits(hash, l, s, rows, longest) && l.history == Some(longest * rows)
    requires Legal(s, turn) && WithinBounds(s, turn, rows, longest)
    ensures Fits(hash, l, Lead(hash, l, s, turn).0, rows, longest)
  {
    hide Inv, Lead, AllSynced, ShortHistories, OneRowEach, Legal;
    LeadKeepsInv(hash, l, s, turn);
    LeadStaysSynced(hash, l, s, rows, longest, turn);
    RowsKept(hash, l, s, turn, rows, longest);
  }

  /** So it is in every state of every run. */
  lemma {:induction false} RunFits<D>(hash: seq<int> -> D, l: Limits, states: seq<Index<D>>, turns: seq<Turn<D>>,
                                      rows: nat, longest: nat, n: nat)
    requires BoundedRun(hash, l, states, turns, rows, longest) && n <= |turns|
    ensures Fits(hash, l, states[n], rows, longest)
  {
    if n == 0 {
      EmptyInv<D>(l);
    } else {
      hide Fits, Lead, WithinBounds, Legal;
      RunFits(hash, l, states, turns, rows, longest, n - 1);
      FitsKept(hash, l, states[n - 1], turns[n - 1], rows, longest);
    }
  }

  // ----- What the runs remember -----

  /** The tokens that the last turn ended on a chain had processed. */
  ghost function LastEnded<D>(hash: seq<int> -> D, states: seq<Index<D>>, turns: seq<Turn<D>>, n: nat, id: string)
    : Option<seq<int>>
    requires n <= |turns| && |states| == |turns| + 1
  {
    if n == 0 then None
    else
      var turn := turns[n - 1];
      if Ends(hash, states[n - 1], turn) && turn.id == id then Some(turn.tokens[..turn.count])
      else LastEnded(hash, states, turns, n - 1, id)
  }

  ghost predicate Recalls<D>(r: Record<D>, ended: Option<seq<int>>) {
    r.digest.Some? ==> r.processed <= |r.tokens| && ended == Some(r.tokens[..r.processed])
  }

  ghost predicate AllRecalled<D>(hash: seq<int> -> D, states: seq<Index<D>>, turns: seq<Turn<D>>, n: nat)
    requires n <= |turns| && |states| == |turns| + 1
  {
    forall id | id in states[n].records :: Recalls(states[n].records[id], LastEnded(hash, states, turns, n, id))
  }

  lemma {:induction false} InheritsRecall<D>(s: Index<D>, t: Index<D>, id: string, ended: Option<seq<int>>)
    requires Inherits(s, t) && id in t.records && (id in s.records ==> Recalls(s.records[id], ended))
    ensures Recalls(t.records[id], ended)
  {
  }

  lemma {:induction false} EndRecalls<D>(r: Record<D>, turn: Turn<D>)
    requires turn.End? && turn.count <= |turn.tokens| && r.tokens == turn.tokens && r.processed == turn.count
    ensures Recalls(r, Some(turn.tokens[..turn.count]))
  {
  }

  lemma {:induction false} RecalledNext<D>(hash: seq<int> -> D, l: Limits, states: seq<Index<D>>, turns: seq<Turn<D>>,
                                           rows: nat, longest: nat, n: nat)
    requires BoundedRun(hash, l, states, turns, rows, longest) && n < |turns|
    requires AllRecalled(hash, states, turns, n)
    ensures AllRecalled(hash, states, turns, n + 1)
  {
    hide Fits, Lead, WithinBounds, Legal, Inherits, Recalls, Ends;
    var s, t, turn := states[n], states[n + 1], turns[n];
    RunFits(hash, l, states, turns, rows, longest, n);
    IsFit(hash, l, s, rows, longest);
    if turn.End? {
      EndedChain(hash, l, s, turn, rows, longest);
      if Ends(hash, s, turn) {
        EndsCount(hash, s, turn);
        EndRecalls(t.records[turn.id], turn);
      }
    } else {
      OnlyEnds(hash, s, turn);
      if turn.Admit? {
        AdmitInherits(hash, l, s, turn);
      } else {
        DiscardInherits(hash, l, s, turn);
      }
      forall id | id in t.records ensures Recalls(t.records[id], LastEnded(hash, states, turns, n, id)) {
        InheritsRecall(s, t, id, LastEnded(hash, states, turns, n, id));
      }
    }
  }

  lemma {:induction false} EndsCount<D>(hash: seq<int> -> D, s: Index<D>, turn: Turn<D>)
    requires Ends(hash, s, turn)
    ensures turn.End? && turn.count <= |turn.tokens|
  {
  }

  lemma {:induction false} OnlyEnds<D>(hash: seq<int> -> D, s: Index<D>, turn: Turn<D>)
    requires !turn.End?
    ensures !Ends(hash, s, turn)
  {
  }

  lemma {:induction false} RunRecalls<D>(hash: seq<int> -> D, l: Limits, states: seq<Index<D>>, turns: seq<Turn<D>>,
                                         rows: nat, longest: nat, n: nat)
    requires BoundedRun(hash, l, states, turns, rows, longest) && n <= |turns|
    ensures AllRecalled(hash, states, turns, n)
  {
    if n > 0 {
      hide Fits, Lead, WithinBounds, Legal, Recalls;
      RunRecalls(hash, l, states, turns, rows, longest, n - 1);
      RecalledNext(hash, l, states, turns, rows, longest, n - 1);
    }
  }

  /** Over every run within the bounds a turn that ends is remembered with all its tokens:
      capacity for the history never runs out. */
  lemma {:induction false} EveryTurnIsRemembered<D>(hash: seq<int> -> D, l: Limits, states: seq<Index<D>>,
                                                    turns: seq<Turn<D>>, rows: nat, longest: nat, i: nat)
    requires BoundedRun(hash, l, states, turns, rows, longest) && i < |turns|
    requires Ends(hash, states[i], turns[i])
    ensures var turn, t := turns[i], states[i + 1];
            && turn.id in t.records && t.records[turn.id].tokens == turn.tokens
            && t.records[turn.id].processed == turn.count
            && t.records[turn.id].digest == Some(hash(turn.tokens[..turn.count]))
    ensures |states[i + 1].records| <= rows
  {
    hide Fits, Lead, WithinBounds, Legal;
    RunFits(hash, l, states, turns, rows, longest, i);
    RunFits(hash, l, states, turns, rows, longest, i + 1);
    IsFit(hash, l, states[i + 1], rows, longest);
    EndedChain(hash, l, states[i], turns[i], rows, longest);
  }

  /** Over every run within the bounds, whatever was evicted, discarded and created again in
      between: a resumed request reuses exactly the tokens that the last turn ended on the
      chain had processed, unless the digest collides on the two. */
  lemma {:induction false} ResumesLastTurn<D>(hash: seq<int> -> D, l: Limits, states: seq<Index<D>>, turns: seq<Turn<D>>,
                                              rows: nat, longest: nat, i: nat, p: Plan)
    requires BoundedRun(hash, l, states, turns, rows, longest) && i < |turns| && turns[i].Admit?
    requires Fresh(hash, states[i], turns[i].request, Tokens(turns[i].prompt), turns[i].candidates, p) && p.resumed
    ensures var prompt, ended := turns[i].prompt, LastEnded(hash, states, turns, i, turns[i].request.chainId);
            && ended.Some? && p.reused == |ended.value| <= |prompt|
            && (prompt[..p.reused] == ended.value || hash(prompt[..p.reused]) == hash(ended.value))
            && ((forall x, y | hash(x) == hash(y) :: x == y) ==> ended.value <= prompt)
  {
    hide Lead, WithinBounds, Legal, Inv, Fresh;
    var q, prompt := turns[i].request, turns[i].prompt;
    RunFits(hash, l, states, turns, rows, longest, i);
    RunRecalls(hash, l, states, turns, rows, longest, i);
    FreshPlanFacts(hash, states[i], q, Tokens(prompt), turns[i].candidates, p);
    ResumeIsSound(hash, states[i], q, prompt, turns[i].candidates, p);
  }

  // ----- Resuming succeeds -----

  /** An idle chain has ended a turn. */
  lemma {:induction false} IdleHasEnded<D>(hash: seq<int> -> D, l: Limits, states: seq<Index<D>>, turns: seq<Turn<D>>,
                                           rows: nat, longest: nat, i: nat, id: string)
    requires BoundedRun(hash, l, states, turns, rows, longest) && i <= |turns|
    requires id in states[i].records && states[i].records[id].state.Idle?
    ensures var r, ended := states[i].records[id], LastEnded(hash, states, turns, i, id);
            ended.Some? && r.processed == |ended.value| && r.digest == Some(hash(ended.value))
  {
    hide Lead, WithinBounds, Legal;
    RunFits(hash, l, states, turns, rows, longest, i);
    RunRecalls(hash, l, states, turns, rows, longest, i);
    assert Recalls(states[i].records[id], LastEnded(hash, states, turns, i, id));
    assert Synced(hash, states[i].records[id]);
  }

  /** Over every run within the bounds: an idle chain is resumed with the fingerprint and the
      sequence id it has, any prompt that begins with the tokens of its last ended turn, and
      enough room; all of those tokens are reused.  If the prompt brings a new token, rank 0
      carries the plan out and the chain is active. */
  lemma {:induction false} ContinuationIsResumed<D>(hash: seq<int> -> D, l: Limits, states: seq<Index<D>>,
                                                    turns: seq<Turn<D>>, rows: nat, longest: nat, i: nat)
    requires BoundedRun(hash, l, states, turns, rows, longest) && i < |turns| && turns[i].Admit?
    requires var s, q := states[i], turns[i].request;
             && q.chainId in s.records && s.records[q.chainId].state.Idle?
             && s.records[q.chainId].fingerprint == q.fingerprint && s.records[q.chainId].seqId == q.seqId
    requires (forall id | id in turns[i].candidates :: id in states[i].records) &&
             Hold(states[i], turns[i].candidates, turns[i].request)
    requires var ended := LastEnded(hash, states, turns, i, turns[i].request.chainId);
             ended.Some? ==> ended.value <= turns[i].prompt
    ensures var s, q, prompt := states[i], turns[i].request, turns[i].prompt;
            var ended := LastEnded(hash, states, turns, i, q.chainId);
            var outcome := PlanAdmission(hash, s, q, Tokens(prompt), turns[i].candidates).1;
            && ended.Some? && outcome.Success? && outcome.value.resumed && outcome.value.reused == |ended.value|
            && (|prompt| > |ended.value| ==>
                  && Lead(hash, l, s, turns[i]).1.CarryOut?
                  && q.chainId in states[i + 1].records && states[i + 1].records[q.chainId].state.Active?)
  {
    hide Fits, WithinBounds, Legal, Inv, PlanAdmission, Hold, ApplyAdmission, Lead, IsCandidates;
    var s, q, prompt, ids := states[i], turns[i].request, turns[i].prompt, turns[i].candidates;
    IdleHasEnded(hash, l, states, turns, rows, longest, i, q.chainId);
    var ended := LastEnded(hash, states, turns, i, q.chainId).value;
    assert prompt[..|ended|] == ended;
    LegalAdmit(s, turns[i]);
    PlanOutcome(hash, s, q, Tokens(prompt), ids);
    PlanFields(hash, s, q, Tokens(prompt), ids);
    RunFits(hash, l, states, turns, rows, longest, i);
    IsFit(hash, l, s, rows, longest);
    CarriedOut(hash, l, s, turns[i], |ended|);
  }

  lemma {:induction false} LegalAdmit<D>(s: Index<D>, turn: Turn<D>)
    requires turn.Admit? && Legal(s, turn)
    ensures IsCandidates(s, turn.request.chainId, turn.candidates)
  {
  }

  lemma {:induction false} CarriedOut<D>(hash: seq<int> -> D, l: Limits, s: Index<D>, turn: Turn<D>, reused: nat)
    requires Inv(l, s) && turn.Admit? && Legal(s, turn)
    requires forall id | id in turn.candidates :: id in s.records
    requires var outcome := PlanAdmission(hash, s, turn.request, Tokens(turn.prompt), turn.candidates).1;
             outcome.Success? && outcome.value.resumed && outcome.value.reused == reused
    ensures |turn.prompt| > reused ==>
              && Lead(hash, l, s, turn).1.CarryOut?
              && var t := Lead(hash, l, s, turn).0;
                 turn.request.chainId in t.records && t.records[turn.request.chainId].state.Active?
  {
    hide Inv, PlanAdmission, ApplyAdmission, IsCandidates;
    var q, ids := turn.request, turn.candidates;
    var p := PlanAdmission(hash, s, q, Tokens(turn.prompt), ids).1.value;
    FreshIs(hash, s, turn, p);
    FreshPlanFacts(hash, s, q, Tokens(turn.prompt), ids, p);
    FreshPlanApplies(hash, l, s, q, Tokens(turn.prompt), ids, p);
    PlanLeavesRecords(hash, s, q, Tokens(turn.prompt), ids);
  }
}
