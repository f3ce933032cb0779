/** What the chain index keeps over every run, and what its plans are worth. */
module ChainIndexTheorems {
  import opened ChainIndex
  import opened Sequences
  import opened Wrappers

  // ----- The invariant -----

  /** A sequence id belongs to one chain, and each resident chain to one sequence id. */
  ghost predicate Owned<D>(s: Index<D>) {
    && (forall id | id in s.records :: s.records[id].seqId in s.owners && s.owners[s.records[id].seqId] == id)
    && (forall q | q in s.owners :: s.owners[q] in s.records && s.records[s.owners[q]].seqId == q)
  }

  /** The lengths of all token histories. */
  ghost function Total<D>(records: map<string, Record<D>>): nat {
    if records == map[] then 0
    else
      var id :| id in records;
      |records[id].tokens| + Total(records - {id})
  }

  ghost predicate HistoryKept<D>(l: Limits, s: Index<D>) {
    s.history == Total(s.records) && (l.history.Some? ==> s.history <= l.history.value)
  }

  ghost predicate TombstonesBounded<D>(l: Limits, s: Index<D>) {
    NoDuplicates(s.tombstones) && |s.tombstones| <= l.tombstones
  }

  /** No two records were last used at the same time. */
  ghost predicate Clocked<D>(s: Index<D>) {
    && (forall id | id in s.records :: s.records[id].lastAccess <= s.clock)
    && (forall a, b | a in s.records && b in s.records && a != b :: s.records[a].lastAccess != s.records[b].lastAccess)
  }

  /** Every chain ever created is resident, evicted or invalidated. */
  ghost predicate Balanced<D>(s: Index<D>) {
    s.stats.created == |s.records| + s.stats.evicted + s.stats.invalidated
  }

  /** An idle chain can be resumed and holds no reservation. */
  ghost predicate IdleSettled<D>(s: Index<D>) {
    forall id | id in s.records && s.records[id].state.Idle? ::
      s.records[id].digest.Some? && s.records[id].reservedSlots == [] && s.records[id].reservedRows == 0
  }

  ghost predicate Inv<D>(l: Limits, s: Index<D>) {
    && Owned(s) && HistoryKept(l, s) && TombstonesBounded(l, s)
    && Clocked(s) && Balanced(s) && IdleSettled(s)
  }

  // ----- Sums over the records -----

  lemma {:induction false} TotalAt<D>(records: map<string, Record<D>>, id: string)
    requires id in records
    ensures Total(records) == |records[id].tokens| + Total(records - {id})
    decreases |records|
  {
    var x :| x in records && Total(records) == |records[x].tokens| + Total(records - {x});
    if x != id {
      SmallerMap(records, x);
      SmallerMap(records, id);
      TotalAt(records - {x}, id);
      TotalAt(records - {id}, x);
      assert records - {x} - {id} == records - {id} - {x};
    }
  }

  lemma {:induction false} SmallerMap<D>(records: map<string, Record<D>>, id: string)
    requires id in records
    ensures |records - {id}| == |records| - 1
  {
    assert (records - {id}).Keys == records.Keys - {id};
    assert |records.Keys - {id}| == |records.Keys| - 1;
  }

  lemma {:induction false} LargerMap<D>(records: map<string, Record<D>>, id: string, r: Record<D>)
    ensures |records[id := r]| == if id in records then |records| else |records| + 1
  {
    assert records[id := r].Keys == records.Keys + {id};
    if id in records {
      assert records.Keys + {id} == records.Keys;
    }
  }

  lemma {:induction false} TotalUpdate<D>(records: map<string, Record<D>>, id: string, r: Record<D>)
    ensures Total(records[id := r]) ==
            |r.tokens| + Total(records) - if id in records then |records[id].tokens| else 0
  {
    TotalAt(records[id := r], id);
    if id in records {
      TotalAt(records, id);
      assert records[id := r] - {id} == records - {id};
    } else {
      assert records[id := r] - {id} == records;
    }
  }

  // ----- Tombstones -----

  lemma {:induction false} WithoutIs(ids: seq<string>, id: string)
    requires NoDuplicates(ids)
    ensures NoDuplicates(Without(ids, id)) && id !in Without(ids, id)
    ensures forall x :: x in Without(ids, id) <==> x in ids && x != id
  {
    if ids != [] {
      var n := |ids| - 1;
      WithoutIs(ids[..n], id);
      var front := Without(ids[..n], id);
      assert ids == ids[..n] + [ids[n]];
      assert forall x | x in ids[..n] :: x != ids[n];
      assert forall i | 0 <= i < |front| :: front[i] in front;
    }
  }

  lemma {:induction false} BuriedIsDistinct(ids: seq<string>, id: string, limit: nat)
    requires NoDuplicates(ids)
    ensures NoDuplicates(Buried(ids, id, limit)) && |Buried(ids, id, limit)| <= limit
  {
    WithoutIs(ids, id);
    var w := Without(ids, id);
    assert forall i | 0 <= i < |w| :: w[i] in w;
  }

  // ----- Each operation keeps the invariant -----

  function Invalidated<D>(s: Index<D>): Index<D> {
    s.(stats := s.stats.(invalidated := s.stats.invalidated + 1))
  }

  function Evicted<D>(s: Index<D>): Index<D> {
    s.(stats := s.stats.(evicted := s.stats.evicted + 1))
  }

  lemma {:induction false} DropKeepsOwned<D>(l: Limits, s: Index<D>, id: string)
    requires Owned(s) && id in s.records
    ensures Owned(Drop(l, s, id))
  {
  }

  lemma {:induction false} DropKeepsClock<D>(l: Limits, s: Index<D>, id: string)
    requires Clocked(s) && IdleSettled(s) && id in s.records
    ensures Clocked(Drop(l, s, id)) && IdleSettled(Drop(l, s, id))
  {
  }

  lemma {:induction false} DropKeepsHistory<D>(l: Limits, s: Index<D>, id: string)
    requires HistoryKept(l, s) && TombstonesBounded(l, s) && id in s.records
    ensures HistoryKept(l, Drop(l, s, id)) && TombstonesBounded(l, Drop(l, s, id))
  {
    TotalAt(s.records, id);
    BuriedIsDistinct(s.tombstones, id, l.tombstones);
  }

  lemma {:induction false} DropKeeps<D>(l: Limits, s: Index<D>, id: string)
    requires Inv(l, s) && id in s.records
    ensures Inv(l, Evicted(Drop(l, s, id))) && Inv(l, Invalidated(Drop(l, s, id)))
  {
    hide Owned, Clocked, IdleSettled, HistoryKept, TombstonesBounded;
    DropKeepsOwned(l, s, id);
    DropKeepsClock(l, s, id);
    DropKeepsHistory(l, s, id);
    SmallerMap(s.records, id);
    StatsAside(l, Drop(l, s, id), Evicted(Drop(l, s, id)));
    StatsAside(l, Drop(l, s, id), Invalidated(Drop(l, s, id)));
  }

  /** The counters concern the balance only. */
  lemma {:induction false} StatsAside<D>(l: Limits, s: Index<D>, t: Index<D>)
    requires t == s.(stats := t.stats)
    ensures Owned(t) <==> Owned(s)
    ensures Clocked(t) <==> Clocked(s)
    ensures IdleSettled(t) <==> IdleSettled(s)
    ensures HistoryKept(l, t) <==> HistoryKept(l, s)
    ensures TombstonesBounded(l, t) <==> TombstonesBounded(l, s)
  {
  }

  lemma {:induction false} InvalidateKeeps<D>(l: Limits, s: Index<D>, id: string)
    requires Inv(l, s)
    ensures Inv(l, Invalidate(l, s, id).0)
  {
    if id in s.records {
      DropKeeps(l, s, id);
    }
  }

  lemma {:induction false} EvictKeeps<D>(l: Limits, s: Index<D>, id: string)
    requires Inv(l, s)
    ensures Inv(l, Evict(l, s, id).0)
  {
    if id in s.records {
      DropKeeps(l, s, id);
    }
  }

  lemma {:induction false} EvictAllKeeps<D>(l: Limits, s: Index<D>, ids: seq<string>)
    requires Inv(l, s)
    ensures Inv(l, EvictAll(l, s, ids).0)
    decreases |ids|
  {
    if ids != [] {
      hide Inv, Evict;
      EvictKeeps(l, s, ids[0]);
      if Evict(l, s, ids[0]).1.Success? {
        EvictAllKeeps(l, Evict(l, s, ids[0]).0, ids[1..]);
      }
    }
  }

  lemma {:induction false} AddKeepsOwned<D>(s: Index<D>, id: string, r: Record<D>, t: Index<D>)
    requires Owned(s) && id !in s.records && r.seqId !in s.owners
    requires t.records == s.records[id := r] && t.owners == s.owners[r.seqId := id]
    ensures Owned(t)
  {
  }

  /** A new record, or a new value for an old one, last used now or when it was before. */
  lemma {:induction false} PutKeepsClock<D>(s: Index<D>, id: string, r: Record<D>, t: Index<D>)
    requires Clocked(s) && IdleSettled(s) && t.records == s.records[id := r]
    requires (id in s.records && r.lastAccess == s.records[id].lastAccess && t.clock == s.clock)
             || r.lastAccess == t.clock == s.clock + 1
    requires r.state.Idle? ==> r.digest.Some? && r.reservedSlots == [] && r.reservedRows == 0
    ensures Clocked(t) && IdleSettled(t)
  {
  }

  lemma {:induction false} PutKeepsHistory<D>(l: Limits, s: Index<D>, id: string, r: Record<D>, t: Index<D>)
    requires HistoryKept(l, s) && TombstonesBounded(l, s)
    requires t.records == s.records[id := r] && t.tombstones == s.tombstones
    requires t.history == s.history + |r.tokens| - if id in s.records then |s.records[id].tokens| else 0
    requires l.history.Some? ==> t.history <= l.history.value
    ensures HistoryKept(l, t) && TombstonesBounded(l, t)
  {
    TotalUpdate(s.records, id, r);
  }

  lemma {:induction false} CreateKeeps<D>(l: Limits, s: Index<D>, p: Plan, fingerprint: D)
    requires Inv(l, s)
    ensures Inv(l, Create(s, p, fingerprint).0)
  {
    hide Owned, Clocked, IdleSettled, HistoryKept, TombstonesBounded, Total;
    if p.chainId !in s.records && p.seqId !in s.owners {
      var r, t := NewRecord(p, fingerprint, s.clock + 1), Create(s, p, fingerprint).0;
      HistoryInLimit(l, s);
      AddKeepsOwned(s, p.chainId, r, t);
      PutKeepsClock(s, p.chainId, r, t);
      PutKeepsHistory(l, s, p.chainId, r, t);
      LargerMap(s.records, p.chainId, r);
    }
  }

  lemma {:induction false} HistoryInLimit<D>(l: Limits, s: Index<D>)
    requires HistoryKept(l, s)
    ensures l.history.Some? ==> s.history <= l.history.value
  {
  }

  lemma {:induction false} UpdateKeepsOwned<D>(s: Index<D>, id: string, r: Record<D>, t: Index<D>)
    requires Owned(s) && id in s.records && r.seqId == s.records[id].seqId
    requires t.records == s.records[id := r] && t.owners == s.owners
    ensures Owned(t)
  {
  }

  /** Changing a record in place, with a new time of access or the old one. */
  lemma {:induction false} UpdateKeeps<D>(l: Limits, s: Index<D>, id: string, r: Record<D>, t: Index<D>)
    requires Inv(l, s) && id in s.records && r.seqId == s.records[id].seqId
    requires (r.lastAccess == s.records[id].lastAccess && t.clock == s.clock) || r.lastAccess == t.clock == s.clock + 1
    requires r.state.Idle? ==> r.digest.Some? && r.reservedSlots == [] && r.reservedRows == 0
    requires t.records == s.records[id := r] && t.owners == s.owners && t.tombstones == s.tombstones
    requires t.history == s.history + |r.tokens| - |s.records[id].tokens|
    requires l.history.Some? ==> t.history <= l.history.value
    requires t.stats.created == s.stats.created && t.stats.evicted == s.stats.evicted
    requires t.stats.invalidated == s.stats.invalidated
    ensures Inv(l, t)
  {
    hide Owned, Clocked, IdleSettled, HistoryKept, TombstonesBounded, Total;
    UpdateKeepsOwned(s, id, r, t);
    PutKeepsClock(s, id, r, t);
    PutKeepsHistory(l, s, id, r, t);
    LargerMap(s.records, id, r);
  }

  lemma {:induction false} ResumeKeeps<D>(l: Limits, s: Index<D>, p: Plan)
    requires Inv(l, s)
    ensures Inv(l, Resume(s, p).0)
  {
    if p.chainId in s.records && s.records[p.chainId].state.Idle? {
      UpdateKeeps(l, s, p.chainId, ResumedRecord(s.records[p.chainId], p, s.clock + 1), Resume(s, p).0);
    }
  }

  lemma {:induction false} FinishDigestKeeps<D>(l: Limits, s: Index<D>, id: string, digest: D, count: int,
                                                slots: seq<nat>, rows: nat)
    requires Inv(l, s)
    ensures Inv(l, FinishDigest(s, id, digest, count, slots, rows).0)
  {
    if id in s.records && s.records[id].state.Active? && count >= s.records[id].processed {
      UpdateKeeps(l, s, id, FinishedRecord(s.records[id], digest, count, slots, rows, s.clock + 1),
                  FinishDigest(s, id, digest, count, slots, rows).0);
    }
  }

  lemma {:induction false} StoreKeeps<D>(l: Limits, s: Index<D>, id: string, tokens: seq<int>)
    requires Inv(l, s) && id in s.records
    requires l.history.Some? ==> s.history - |s.records[id].tokens| + |tokens| <= l.history.value
    ensures Inv(l, Store(s, id, tokens))
  {
    UpdateKeeps(l, s, id, s.records[id].(tokens := tokens), Store(s, id, tokens));
  }

  // ----- Runs -----

  /** A call, with arbitrary arguments. */
  datatype Step<D> =
    | DoPlan(request: Request<D>, evidence: Evidence<D>)
    | DoApply(plan: Plan, fingerprint: D)
    | DoFinish(id: string, tokens: seq<int>, count: int, slots: seq<nat>, rows: nat)
    | DoFinishDigest(id: string, digest: D, count: int, slots: seq<nat>, rows: nat)
    | DoRemember(id: string, seqId: int, tokens: seq<int>, count: int)
    | DoInvalidate(id: string)
    | DoEvict(id: string)
    | DoReset

  function After<D(==)>(hash: seq<int> -> D, l: Limits, s: Index<D>, step: Step<D>): Index<D> {
    match step
    case DoPlan(q, e) => PlanAdmission(hash, s, q, e, []).0  // the candidates do not affect the state
    case DoApply(p, fingerprint) => ApplyAdmission(l, s, p, fingerprint).0
    case DoFinish(id, tokens, count, slots, rows) => Finish(hash, l, s, id, tokens, count, slots, rows).0
    case DoFinishDigest(id, digest, count, slots, rows) => FinishDigest(s, id, digest, count, slots, rows).0
    case DoRemember(id, seqId, tokens, count) => Remember(hash, l, s, id, seqId, tokens, count).0
    case DoInvalidate(id) => Invalidate(l, s, id).0
    case DoEvict(id) => Evict(l, s, id).0
    case DoReset => Empty()
  }

  function Run<D(==)>(hash: seq<int> -> D, l: Limits, s: Index<D>, steps: seq<Step<D>>): Index<D> {
    if steps == [] then s
    else After(hash, l, Run(hash, l, s, steps[..|steps| - 1]), steps[|steps| - 1])
  }

  lemma {:induction false} PlanKeeps<D>(hash: seq<int> -> D, l: Limits, s: Index<D>, q: Request<D>, e: Evidence<D>,
                                        ids: seq<string>)
    requires Inv(l, s) && forall id | id in ids :: id in s.records
    ensures Inv(l, PlanAdmission(hash, s, q, e, ids).0)
  {
    hide Owned, Clocked, IdleSettled, HistoryKept, TombstonesBounded, Refusal, VictimCount, Covers;
    StatsAside(l, s, PlanAdmission(hash, s, q, e, ids).0);
  }

  lemma {:induction false} ApplyKeeps<D>(l: Limits, s: Index<D>, p: Plan, fingerprint: D)
    requires Inv(l, s)
    ensures Inv(l, ApplyAdmission(l, s, p, fingerprint).0)
  {
    hide Inv, EvictAll, Create, Resume;
    EvictAllKeeps(l, s, p.victims);
    CreateKeeps(l, EvictAll(l, s, p.victims).0, p, fingerprint);
    ResumeKeeps(l, EvictAll(l, s, p.victims).0, p);
  }

  lemma {:induction false} FinishKeeps<D>(hash: seq<int> -> D, l: Limits, s: Index<D>, id: string, tokens: seq<int>,
                                          count: int, slots: seq<nat>, rows: nat)
    requires Inv(l, s)
    ensures Inv(l, Finish(hash, l, s, id, tokens, count, slots, rows).0)
  {
    hide Inv;
    if id in s.records && HistoryError(l, s, s.records[id], tokens, count).None? {
      FinishDigestKeeps(l, s, id, hash(tokens[..count]), count, slots, rows);
      var (t, outcome) := FinishDigest(s, id, hash(tokens[..count]), count, slots, rows);
      if outcome.Success? {
        StoreKeeps(l, t, id, tokens);
      }
    }
  }

  lemma {:induction false} RememberKeeps<D>(hash: seq<int> -> D, l: Limits, s: Index<D>, id: string, seqId: int,
                                            tokens: seq<int>, count: int)
    requires Inv(l, s)
    ensures Inv(l, Remember(hash, l, s, id, seqId, tokens, count).0)
  {
    hide Inv;
    if id in s.records && HistoryError(l, s, s.records[id], tokens, count).None? {
      StoreKeeps(l, s, id, tokens);
    }
  }

  lemma {:induction false} EmptyInv<D>(l: Limits)
    ensures Inv(l, Empty<D>())
  {
  }

  /** Every call, with whatever arguments and whether or not it raises, keeps the invariant. */
  lemma {:induction false} InvKept<D>(hash: seq<int> -> D, l: Limits, s: Index<D>, step: Step<D>)
    requires Inv(l, s)
    ensures Inv(l, After(hash, l, s, step))
  {
    hide Inv, PlanAdmission, ApplyAdmission, Finish, FinishDigest, Remember, Invalidate, Evict;
    match step
    case DoPlan(q, e) => PlanKeeps(hash, l, s, q, e, []);
    case DoApply(p, fingerprint) => ApplyKeeps(l, s, p, fingerprint);
    case DoFinish(id, tokens, count, slots, rows) => FinishKeeps(hash, l, s, id, tokens, count, slots, rows);
    case DoFinishDigest(id, digest, count, slots, rows) => FinishDigestKeeps(l, s, id, digest, count, slots, rows);
    case DoRemember(id, seqId, tokens, count) => RememberKeeps(hash, l, s, id, seqId, tokens, count);
    case DoInvalidate(id) => InvalidateKeeps(l, s, id);
    case DoEvict(id) => EvictKeeps(l, s, id);
    case DoReset => EmptyInv<D>(l);
  }

  lemma {:induction false} ReachableInv<D>(hash: seq<int> -> D, l: Limits, steps: seq<Step<D>>)
    ensures Inv(l, Run(hash, l, Empty(), steps))
  {
    if steps == [] {
      EmptyInv<D>(l);
    } else {
      ReachableInv(hash, l, steps[..|steps| - 1]);
      InvKept(hash, l, Run(hash, l, Empty(), steps[..|steps| - 1]), steps[|steps| - 1]);
    }
  }
}
