/** What each call of the chain index leaves in the records, field by field, and in the
    counters. */
module ChainIndexRecords {
  import opened ChainIndex
  import opened ChainIndexTheorems
  import opened ChainIndexPlans
  import opened Wrappers

  /** The record was accessed after all the others. */
  ghost predicate Latest<D>(s: Index<D>, id: string) {
    && id in s.records
    && forall x | x in s.records && x != id :: s.records[x].lastAccess < s.records[id].lastAccess
  }

  /** The chain is where it was, and nothing but its record has changed. */
  ghost predicate OnlyRecord<D>(s: Index<D>, t: Index<D>, id: string) {
    && id in s.records && id in t.records && t.records == s.records[id := t.records[id]]
    && t.owners == s.owners && t.tombstones == s.tombstones
    && t.records[id].seqId == s.records[id].seqId && t.records[id].fingerprint == s.records[id].fingerprint
  }

  /** A chain that is not resident: gone if it has a tombstone, and unknown otherwise. */
  ghost predicate Absent<D, T>(s: Index<D>, id: string, outcome: Result<T, ChainError>) {
    && id !in s.records
    && outcome == Failure(if id in s.tombstones then Gone else NotFound)
  }

  // ----- The end of a turn -----

  /** Ending a turn succeeds exactly for an active chain that has not processed more before.
      The record is idle then, at the new boundary, with the slots and rows given and without
      reservation, and no other record is more recent. */
  lemma {:induction false} EndOfTurn<D>(l: Limits, s: Index<D>, id: string, digest: D, count: int, slots: seq<nat>, rows: nat)
    requires Inv(l, s)
    ensures var (t, outcome) := FinishDigest(s, id, digest, count, slots, rows);
            && (outcome.Success? <==>
                id in s.records && s.records[id].state.Active? && count >= s.records[id].processed)
            && (outcome.Failure? ==>
                  t == s && (Absent(s, id, outcome) || (id in s.records && outcome == Failure(OtherOwner))))
            && (outcome.Success? ==>
                  && OnlyRecord(s, t, id) && Latest(t, id) && t.history == s.history
                  && t.stats == s.stats.(finished := s.stats.finished + 1)
                  && outcome.value == t.records[id]
                  && var r, was := t.records[id], s.records[id];
                     && r.state.Idle? && r.processed == count && r.digest == Some(digest)
                     && r.slots == slots && r.rows == rows && r.reservedSlots == [] && r.reservedRows == 0
                     && r.tokens == was.tokens && r.lastInput == was.lastInput)
  {
  }

  /** A token is remembered exactly if it fits 32 unsigned bits. */
  lemma {:induction false} StorableIff(tokens: seq<int>)
    ensures Storable(tokens) <==> forall token | token in tokens :: 0 <= token < 0x1_0000_0000
  {
    assert forall i | 0 <= i < |tokens| :: tokens[i] in tokens;
  }

  /** What stands in the way of remembering tokens: a negative count, a token that does not
      fit or too few tokens, and last the room left once the chain's own history is gone. */
  lemma {:induction false} HistoryErrorIs<D>(l: Limits, s: Index<D>, r: Record<D>, tokens: seq<int>, count: int)
    ensures var error := HistoryError(l, s, r, tokens, count);
            var fits := |tokens| >= count && forall token | token in tokens :: 0 <= token < 0x1_0000_0000;
            && (error == Some(BadCount) <==> count < 0)
            && (error == Some(OtherOwner) <==> count >= 0 && !fits)
            && (error == Some(NoCapacity) <==>
                count >= 0 && fits && l.history.Some? && s.history + |tokens| > l.history.value + |r.tokens|)
            && (error == None <==>
                count >= 0 && fits && (l.history.Some? ==> s.history + |tokens| <= l.history.value + |r.tokens|))
  {
    StorableIff(tokens);
  }

  // ----- Admissions -----

  lemma {:induction false} EvictAllCounts<D>(l: Limits, s: Index<D>, ids: seq<string>)
    requires Inv(l, s) && AllIdle(s, ids)
    ensures var t := EvictAll(l, s, ids).0;
            && t.stats == s.stats.(evicted := s.stats.evicted + |ids|)
            && Inv(l, t)
    decreases |ids|
  {
    hide Inv, AllIdle;
    EvictAllKeeps(l, s, ids);
    if ids != [] {
      IdleFirst(s, ids);
      EvictOne(l, s, ids[0]);
      EvictKeeps(l, s, ids[0]);
      IdleRest(s, ids, Evict(l, s, ids[0]).0);
      EvictCounts(l, s, ids[0]);
      EvictAllCounts(l, Evict(l, s, ids[0]).0, ids[1..]);
    }
  }

  lemma {:induction false} EvictCounts<D>(l: Limits, s: Index<D>, id: string)
    requires Evict(l, s, id).1.Success?
    ensures Evict(l, s, id).0.stats == s.stats.(evicted := s.stats.evicted + 1)
  {
  }

  /** The record that carrying out a plan leaves, and what it keeps of the record before. */
  ghost predicate Seated<D>(was: Option<Record<D>>, r: Record<D>, p: Plan, fingerprint: D) {
    && r.state.Active? && r.lastInput == p.inputCount
    && r.reservedSlots == p.reservedSlots && r.reservedRows == p.reservedRows
    && match was
       case None =>
         && r.seqId == p.seqId && r.fingerprint == fingerprint && r.processed == 0
         && r.digest == None && r.tokens == [] && r.slots == [] && r.rows == 1
       case Some(w) =>
         && r.seqId == w.seqId && r.fingerprint == w.fingerprint && r.processed == w.processed
         && r.digest == w.digest && r.tokens == w.tokens && r.slots == w.slots && r.rows == w.rows
  }

  lemma {:induction false} CreateSeats<D>(l: Limits, s: Index<D>, p: Plan, fingerprint: D)
    requires Inv(l, s) && Create(s, p, fingerprint).1.Success?
    ensures var (t, outcome) := Create(s, p, fingerprint);
            && p.chainId !in s.records && p.seqId !in s.owners
            && Latest(t, p.chainId) && outcome.value == t.records[p.chainId]
            && t.records == s.records[p.chainId := t.records[p.chainId]]
            && t.stats == s.stats.(created := s.stats.created + 1)
            && Seated(None, t.records[p.chainId], p, fingerprint)
  {
    BeforeNow(l, s);
    hide Inv;
  }

  lemma {:induction false} ResumeSeats<D>(l: Limits, s: Index<D>, p: Plan, fingerprint: D)
    requires Inv(l, s) && Resume(s, p).1.Success?
    ensures var (t, outcome) := Resume(s, p);
            && p.chainId in s.records && s.records[p.chainId].state.Idle?
            && Latest(t, p.chainId) && outcome.value == t.records[p.chainId]
            && t.records == s.records[p.chainId := t.records[p.chainId]]
            && t.stats == s.stats.(resumed := s.stats.resumed + 1)
            && Seated(Some(s.records[p.chainId]), t.records[p.chainId], p, fingerprint)
  {
    BeforeNow(l, s);
    hide Inv;
  }

  /** Carrying out a plan: the record is active, most recent, and has the input and the
      reservations of the plan.  A new one is the plan's, on one row and without slots; a
      resumed one keeps what it has. */
  lemma {:induction false} Admitted<D>(l: Limits, s: Index<D>, p: Plan, fingerprint: D)
    requires Inv(l, s) && AllIdle(s, p.victims) && ApplyAdmission(l, s, p, fingerprint).1.Success?
    ensures var (t, outcome) := ApplyAdmission(l, s, p, fingerprint);
            && Latest(t, p.chainId) && outcome.value == t.records[p.chainId]
            && t.records == (s.records - IdSet(p.victims))[p.chainId := t.records[p.chainId]]
            && t.stats == s.stats.(evicted := s.stats.evicted + |p.victims|,
                                   created := s.stats.created + if p.resumed then 0 else 1,
                                   resumed := s.stats.resumed + if p.resumed then 1 else 0)
            && (p.resumed ==> p.chainId in s.records && p.chainId !in p.victims)
            && Seated(if p.resumed then Some(s.records[p.chainId]) else None, t.records[p.chainId], p, fingerprint)
  {
    hide Inv, EvictAll, AllIdle, Create, Resume, Latest, Seated;
    EvictAllCounts(l, s, p.victims);
    EvictAllIs(l, s, p.victims);
    var t0 := EvictAll(l, s, p.victims).0;
    if p.resumed {
      ResumeSeats(l, t0, p, fingerprint);
    } else {
      CreateSeats(l, t0, p, fingerprint);
    }
  }

  lemma {:induction false} BeforeNow<D>(l: Limits, s: Index<D>)
    requires Inv(l, s)
    ensures forall id | id in s.records :: s.records[id].lastAccess < s.clock + 1
  {
  }

  // ----- Leaving -----

  /** An eviction succeeds exactly for an idle chain, an invalidation for any; the chain's
      tokens leave the history, and each is counted as what it is. */
  lemma {:induction false} Leaving<D>(l: Limits, s: Index<D>, id: string)
    ensures var (t, outcome) := Evict(l, s, id);
            && (outcome.Success? <==> id in s.records && s.records[id].state.Idle?)
            && (outcome.Failure? ==> Absent(s, id, outcome) || (id in s.records && outcome == Failure(Busy)))
            && (outcome.Success? ==>
                  && t.records == s.records - {id} && t.history == s.history - |s.records[id].tokens|
                  && t.stats == s.stats.(evicted := s.stats.evicted + 1)
                  && outcome.value == s.records[id].(tokens := []))
    ensures var (t, outcome) := Invalidate(l, s, id);
            && (outcome.Success? <==> id in s.records)
            && (outcome.Failure? ==> Absent(s, id, outcome))
            && (outcome.Success? ==>
                  && t.records == s.records - {id} && t.history == s.history - |s.records[id].tokens|
                  && t.stats == s.stats.(invalidated := s.stats.invalidated + 1)
                  && outcome.value == s.records[id].(tokens := []))
  {
  }

  // ----- Remembering -----

  /** Rank 0 remembers tokens exactly for an idle chain of that sequence id, within the bounds
      on histories, and if they are the ones behind its digest and boundary. */
  lemma {:induction false} RememberedIff<D>(hash: seq<int> -> D, l: Limits, s: Index<D>, id: string, seqId: int,
                                            tokens: seq<int>, count: int)
    ensures var (t, outcome) := Remember(hash, l, s, id, seqId, tokens, count);
            && (outcome.Success? <==>
                  && id in s.records && s.records[id].seqId == seqId && s.records[id].state.Idle?
                  && HistoryError(l, s, s.records[id], tokens, count) == None
                  && s.records[id].processed == count && s.records[id].digest == Some(hash(tokens[..count])))
            && (outcome.Success? ==>
                  t == s.(records := s.records[id := s.records[id].(tokens := tokens)],
                          history := s.history - |s.records[id].tokens| + |tokens|))
  {
  }
}
