/** What an admission plan of the chain index guarantees, and what carrying it out does. */
module ChainIndexPlans {
  import opened ChainIndex
  import opened ChainIndexTheorems
  import opened ChainIndexTombstones
  import opened Sequences
  import opened Wrappers

  // ----- The victims are the fewest that free enough -----

  function Freed<D>(s: Index<D>, ids: seq<string>, layer: nat): nat
    requires forall id | id in ids :: id in s.records
  {
    if ids == [] then 0 else SlotAt(s.records[ids[0]].slots, layer) + Freed(s, ids[1..], layer)
  }

  function FreedRows<D>(s: Index<D>, ids: seq<string>): nat
    requires forall id | id in ids :: id in s.records
  {
    if ids == [] then 0 else s.records[ids[0]].rows + FreedRows(s, ids[1..])
  }

  /** Both are sums over the chains; in a layer that it does not have a chain holds nothing. */
  lemma {:induction false} FreedIsSum<D>(s: Index<D>, ids: seq<string>, id: string, layer: nat)
    requires (forall x | x in ids :: x in s.records) && id in s.records
    ensures Freed(s, [], layer) == FreedRows(s, []) == 0
    ensures var held := s.records[id];
            && Freed(s, [id] + ids, layer) ==
               Freed(s, ids, layer) + (if layer < |held.slots| then held.slots[layer] else 0)
            && FreedRows(s, [id] + ids) == FreedRows(s, ids) + held.rows
  {
    assert ([id] + ids)[1..] == ids;
  }

  /** The chains together hold what is needed, in every layer and in rows. */
  ghost predicate FreesEnough<D>(s: Index<D>, ids: seq<string>, slots: seq<nat>, rows: nat)
    requires forall id | id in ids :: id in s.records
  {
    && rows <= FreedRows(s, ids)
    && forall layer: nat | layer < |slots| :: slots[layer] <= Freed(s, ids, layer)
  }

  /** Reducing the needs chain by chain, never below zero, comes to comparing sums. */
  lemma {:induction false} CoversIffFreesEnough<D>(s: Index<D>, ids: seq<string>, slots: seq<nat>, rows: nat)
    requires forall id | id in ids :: id in s.records
    ensures Covers(s, ids, slots, rows) <==> FreesEnough(s, ids, slots, rows)
  {
    if ids != [] {
      var r := s.records[ids[0]];
      CoversIffFreesEnough(s, ids[1..], Reduced(slots, r.slots), AtLeastZero(rows - r.rows));
      assert forall layer: nat | layer < |slots| ::
          (Reduced(slots, r.slots)[layer] <= Freed(s, ids[1..], layer) <==> slots[layer] <= Freed(s, ids, layer));
    }
  }

  lemma {:induction false} CoversRest<D>(s: Index<D>, ids: seq<string>, j: nat, slots: seq<nat>, rows: nat)
    requires (forall id | id in ids :: id in s.records) && 0 < j <= |ids|
    ensures var r := s.records[ids[0]];
            Covers(s, ids[..j], slots, rows) <==>
            Covers(s, ids[1..][..j - 1], Reduced(slots, r.slots), AtLeastZero(rows - r.rows))
  {
    assert ids[..j][1..] == ids[1..][..j - 1];
  }

  /** The loop over the candidates stops at the first point where they cover the needs, or
      at their end. */
  lemma {:induction false} VictimsAreFewest<D>(s: Index<D>, ids: seq<string>, slots: seq<nat>, rows: nat)
    requires forall id | id in ids :: id in s.records
    ensures var k := VictimCount(s, ids, slots, rows);
            && (k == |ids| || Covers(s, ids[..k], slots, rows))
            && forall j | 0 <= j < k :: !Covers(s, ids[..j], slots, rows)
  {
    if ids != [] && !Satisfied(slots, rows) {
      hide Covers;
      var r := s.records[ids[0]];
      var slots', rows' := Reduced(slots, r.slots), AtLeastZero(rows - r.rows);
      VictimsAreFewest(s, ids[1..], slots', rows');
      var k := VictimCount(s, ids, slots, rows);
      CoversRest(s, ids, k, slots, rows);
      forall j | 0 <= j < k ensures !Covers(s, ids[..j], slots, rows) {
        if j == 0 {
          CoversNothing(s, slots, rows);
          assert ids[..0] == [];
        } else {
          CoversRest(s, ids, j, slots, rows);
        }
      }
    } else if ids != [] {
      CoversNothing(s, slots, rows);
      assert ids[..0] == [];
    }
  }

  lemma {:induction false} CoversNothing<D>(s: Index<D>, slots: seq<nat>, rows: nat)
    ensures Covers(s, [], slots, rows) <==> Satisfied(slots, rows)
  {
  }

  lemma {:induction false} MoreFreesMore<D>(s: Index<D>, ids: seq<string>, k: nat, slots: seq<nat>, rows: nat)
    requires (forall id | id in ids :: id in s.records) && k <= |ids| && FreesEnough(s, ids[..k], slots, rows)
    ensures FreesEnough(s, ids, slots, rows)
  {
    FreedPrefixRows(s, ids, k);
    forall layer: nat | layer < |slots| ensures slots[layer] <= Freed(s, ids, layer) {
      FreedPrefix(s, ids, k, layer);
    }
  }

  lemma {:induction false} FreedPrefix<D>(s: Index<D>, ids: seq<string>, k: nat, layer: nat)
    requires (forall id | id in ids :: id in s.records) && k <= |ids|
    ensures Freed(s, ids[..k], layer) <= Freed(s, ids, layer)
  {
    if k > 0 {
      FreedPrefix(s, ids[1..], k - 1, layer);
      assert ids[..k][1..] == ids[1..][..k - 1];
    }
  }

  lemma {:induction false} FreedPrefixRows<D>(s: Index<D>, ids: seq<string>, k: nat)
    requires (forall id | id in ids :: id in s.records) && k <= |ids|
    ensures FreedRows(s, ids[..k]) <= FreedRows(s, ids)
  {
    if k > 0 {
      FreedPrefixRows(s, ids[1..], k - 1);
      assert ids[..k][1..] == ids[1..][..k - 1];
    }
  }

  /** A plan fails for want of space only if all idle chains together do not hold what is
      needed; otherwise its victims are the shortest run of least recently used idle chains
      that do, and none of them is active or the requesting chain. */
  lemma {:induction false} PlanIsSparing<D>(hash: seq<int> -> D, s: Index<D>, q: Request<D>, e: Evidence<D>, ids: seq<string>)
    requires IsCandidates(s, q.chainId, ids)
    ensures var outcome := PlanAdmission(hash, s, q, e, ids).1;
            var slots, rows := Floors(q.needSlots), AtLeastZero(q.needRows);
            && (outcome.Success? <==> Refusal(hash, s, q, e).None? && FreesEnough(s, ids, slots, rows))
            && (outcome.Success? ==>
                  var k := |outcome.value.victims|;
                  && k <= |ids| && outcome.value.victims == ids[..k]
                  && FreesEnough(s, ids[..k], slots, rows)
                  && forall j: nat | j < k :: !FreesEnough(s, ids[..j], slots, rows))
  {
    hide Refusal, FreesEnough, Covers, VictimCount;
    var slots, rows := Floors(q.needSlots), AtLeastZero(q.needRows);
    var k := VictimCount(s, ids, slots, rows);
    VictimsAreFewest(s, ids, slots, rows);
    assert ids[..|ids|] == ids;
    CoversIffFreesEnough(s, ids, slots, rows);
    CoversIffFreesEnough(s, ids[..k], slots, rows);
    if FreesEnough(s, ids[..k], slots, rows) {
      MoreFreesMore(s, ids, k, slots, rows);
    }
    forall j: nat | j < k ensures !FreesEnough(s, ids[..j], slots, rows) {
      CoversIffFreesEnough(s, ids[..j], slots, rows);
    }
  }

  // ----- Refusals -----

  /** The input goes at least as far as the chain has processed, and has the chain's digest
      there.  A rank without the tokens is told the digest. */
  ghost predicate Continues<D>(hash: seq<int> -> D, r: Record<D>, e: Evidence<D>) {
    match e
    case Tokens(tokens) => |tokens| >= r.processed && r.digest == Some(hash(tokens[..r.processed]))
    case Digest(count, prefix) => count >= r.processed && r.digest == Some(prefix)
  }

  /** The chains hold what the request lacks, in rows and in every layer. */
  ghost predicate Hold<D>(s: Index<D>, ids: seq<string>, q: Request<D>)
    requires forall id | id in ids :: id in s.records
  {
    && q.needRows <= FreedRows(s, ids)
    && forall layer: nat | layer < |q.needSlots| :: q.needSlots[layer] <= Freed(s, ids, layer)
  }

  lemma {:induction false} HoldIsEnough<D>(s: Index<D>, ids: seq<string>, q: Request<D>)
    requires forall id | id in ids :: id in s.records
    ensures Hold(s, ids, q) <==> FreesEnough(s, ids, Floors(q.needSlots), AtLeastZero(q.needRows))
  {
    var slots := Floors(q.needSlots);
    assert |slots| == |q.needSlots|;
    forall layer: nat | layer < |slots|
      ensures slots[layer] <= Freed(s, ids, layer) <==> q.needSlots[layer] <= Freed(s, ids, layer)
    {
    }
  }

  /** When a request is refused, and why: each answer by the record and the request. */
  lemma {:induction false} PlanOutcome<D>(hash: seq<int> -> D, s: Index<D>, q: Request<D>, e: Evidence<D>, ids: seq<string>)
    requires IsCandidates(s, q.chainId, ids)
    ensures var outcome := PlanAdmission(hash, s, q, e, ids).1;
            && (q.chainId in s.records ==>
                  var r := s.records[q.chainId];
                  var mine := r.state.Idle? && r.fingerprint == q.fingerprint && r.seqId == q.seqId;
                  && (outcome == Failure(Busy) <==> r.state.Active?)
                  && (outcome == Failure(OtherFingerprint) <==> r.state.Idle? && r.fingerprint != q.fingerprint)
                  && (outcome == Failure(OtherOwner) <==>
                      r.state.Idle? && r.fingerprint == q.fingerprint && r.seqId != q.seqId)
                  && (outcome == Failure(PrefixMismatch) <==> mine && !Continues(hash, r, e))
                  && (outcome == Failure(NoCapacity) <==> mine && Continues(hash, r, e) && !Hold(s, ids, q))
                  && (outcome.Success? <==> mine && Continues(hash, r, e) && Hold(s, ids, q)))
            && (q.chainId !in s.records ==>
                  && (outcome == Failure(Gone) <==> q.chainId in s.tombstones)
                  && (outcome == Failure(NoCapacity) <==> q.chainId !in s.tombstones && !Hold(s, ids, q))
                  && (outcome.Success? <==> q.chainId !in s.tombstones && Hold(s, ids, q)))
  {
    RefusalOf(hash, s, q, e);
    HoldIsEnough(s, ids, q);
    PlanIsSparing(hash, s, q, e, ids);
    RefusedFirst(hash, s, q, e, ids);
    hide Refusal, PlanAdmission, Hold, FreesEnough, Continues, IsCandidates;
  }

  lemma {:induction false} RefusedFirst<D>(hash: seq<int> -> D, s: Index<D>, q: Request<D>, e: Evidence<D>, ids: seq<string>)
    requires forall id | id in ids :: id in s.records
    ensures var refusal, outcome := Refusal(hash, s, q, e), PlanAdmission(hash, s, q, e, ids).1;
            if refusal.Some? then outcome == Failure(refusal.value)
            else outcome.Failure? ==> outcome == Failure(NoCapacity)
  {
    hide Refusal, VictimCount, Covers;
  }

  lemma {:induction false} RefusalOf<D>(hash: seq<int> -> D, s: Index<D>, q: Request<D>, e: Evidence<D>)
    ensures var refusal := Refusal(hash, s, q, e);
            if q.chainId in s.records then
              var r := s.records[q.chainId];
              refusal == if r.state.Active? then Some(Busy)
                         else if r.fingerprint != q.fingerprint then Some(OtherFingerprint)
                         else if r.seqId != q.seqId then Some(OtherOwner)
                         else if !Continues(hash, r, e) then Some(PrefixMismatch) else None
            else refusal == if q.chainId in s.tombstones then Some(Gone) else None
  {
  }

  /** A successful plan says what is reused and what is reserved, and planning as such changes
      nothing but the counters of busy chains and of mismatches. */
  lemma {:induction false} PlanFields<D>(hash: seq<int> -> D, s: Index<D>, q: Request<D>, e: Evidence<D>, ids: seq<string>)
    requires IsCandidates(s, q.chainId, ids)
    ensures var (t, outcome) := PlanAdmission(hash, s, q, e, ids);
            && t == s.(stats := t.stats)
            && t.stats == s.stats.(busy := t.stats.busy, mismatch := t.stats.mismatch)
            && t.stats.busy == s.stats.busy + (if outcome == Failure(Busy) then 1 else 0)
            && t.stats.mismatch == s.stats.mismatch + (if outcome == Failure(PrefixMismatch) then 1 else 0)
            && (outcome.Success? ==>
                  var p := outcome.value;
                  && p.chainId == q.chainId && p.seqId == q.seqId
                  && (p.resumed <==> q.chainId in s.records)
                  && p.reused == (if p.resumed then s.records[q.chainId].processed else 0)
                  && p.inputCount == (match e case Tokens(tokens) => |tokens| case Digest(count, _) => count)
                  && |p.reservedSlots| == |q.reserveSlots|
                  && (forall i | 0 <= i < |p.reservedSlots| ::
                        p.reservedSlots[i] >= q.reserveSlots[i] && p.reservedSlots[i] in {0, q.reserveSlots[i]})
                  && p.reservedRows >= q.reserveRows && p.reservedRows in {0, q.reserveRows})
  {
    hide VictimCount, Covers, Refusal, IsCandidates;
    CandidatesAreResident(s, q.chainId, ids);
  }

  lemma {:induction false} CandidatesAreResident<D>(s: Index<D>, forChain: string, ids: seq<string>)
    requires IsCandidates(s, forChain, ids)
    ensures forall id | id in ids :: id in s.records
  {
  }

  /** The least recently used go first: every victim was accessed before every idle chain that
      is spared. */
  lemma {:induction false} VictimsAreOldest<D>(hash: seq<int> -> D, l: Limits, s: Index<D>, q: Request<D>, e: Evidence<D>,
                                               ids: seq<string>, victim: string, spared: string)
    requires Inv(l, s) && IsCandidates(s, q.chainId, ids)
    requires PlanAdmission(hash, s, q, e, ids).1.Success?
    requires victim in PlanAdmission(hash, s, q, e, ids).1.value.victims
    requires spared in s.records && s.records[spared].state.Idle? && spared != q.chainId
    requires spared !in PlanAdmission(hash, s, q, e, ids).1.value.victims
    ensures victim in s.records && s.records[victim].state.Idle? && victim != q.chainId
    ensures s.records[victim].lastAccess < s.records[spared].lastAccess
  {
    hide PlanAdmission, FreesEnough;
    PlanIsSparing(hash, s, q, e, ids);
    var k := |PlanAdmission(hash, s, q, e, ids).1.value.victims|;
    var i :| 0 <= i < k && ids[i] == victim;
    assert Evictable(s, spared, q.chainId);
    var j :| 0 <= j < |ids| && ids[j] == spared;
    forall m | 0 <= m < k ensures ids[m] in ids[..k] {
      assert ids[..k][m] == ids[m];
    }
    assert j >= k;
    assert Before(s, victim, spared);
  }

  // ----- Evicting the victims -----

  ghost predicate AllIdle<D>(s: Index<D>, ids: seq<string>) {
    && NoDuplicates(ids)
    && forall i | 0 <= i < |ids| :: ids[i] in s.records && s.records[ids[i]].state.Idle?
  }

  function IdSet(ids: seq<string>): set<string> {
    set id | id in ids
  }

  /** Evicting distinct idle chains succeeds and removes them and nothing else. */
  lemma {:induction false} EvictAllIs<D>(l: Limits, s: Index<D>, ids: seq<string>)
    requires Inv(l, s) && AllIdle(s, ids)
    ensures var (t, error) := EvictAll(l, s, ids);
            && error.None? && t.records == s.records - IdSet(ids)
            && (forall q :: q in t.owners <==> q in s.owners && s.owners[q] !in ids)
            && (forall q | q in t.owners :: t.owners[q] == s.owners[q])
            && (forall id | id in t.tombstones :: id in s.tombstones || id in ids)
    decreases |ids|
  {
    hide *;
    if ids != [] {
      var t := Evict(l, s, ids[0]).0;
      IdleFirst(s, ids);
      EvictOne(l, s, ids[0]);
      EvictKeeps(l, s, ids[0]);
      IdleRest(s, ids, t);
      EvictAllIs(l, t, ids[1..]);
      EvictAllNext(l, s, ids);
      LessAll(s.records, ids);
      assert forall x :: x in ids <==> x == ids[0] || x in ids[1..];
    } else {
      EvictNone(l, s);
      assert s.records - IdSet([]) == s.records by { EmptyIdSet(); }
    }
  }

  lemma {:induction false} EmptyIdSet()
    ensures IdSet([]) == {}
  {
  }

  lemma {:induction false} EvictNone<D>(l: Limits, s: Index<D>)
    ensures EvictAll(l, s, []) == (s, None)
  {
  }

  lemma {:induction false} EvictAllNext<D>(l: Limits, s: Index<D>, ids: seq<string>)
    requires ids != [] && Evict(l, s, ids[0]).1.Success?
    ensures EvictAll(l, s, ids) == EvictAll(l, Evict(l, s, ids[0]).0, ids[1..])
  {
  }

  lemma {:induction false} IdleFirst<D>(s: Index<D>, ids: seq<string>)
    requires AllIdle(s, ids) && ids != []
    ensures ids[0] in s.records && s.records[ids[0]].state.Idle?
  {
  }

  lemma {:induction false} IdleRest<D>(s: Index<D>, ids: seq<string>, t: Index<D>)
    requires AllIdle(s, ids) && ids != [] && t.records == s.records - {ids[0]}
    ensures AllIdle(t, ids[1..])
  {
    assert forall i | 0 <= i < |ids| - 1 :: ids[1..][i] == ids[i + 1] && ids[0] != ids[i + 1];
  }

  lemma {:induction false} LessAll<D>(records: map<string, Record<D>>, ids: seq<string>)
    requires ids != []
    ensures records - IdSet(ids) == records - {ids[0]} - IdSet(ids[1..])
  {
    assert ids == [ids[0]] + ids[1..];
    assert IdSet(ids) == {ids[0]} + IdSet(ids[1..]);
  }

  lemma {:induction false} EvictOne<D>(l: Limits, s: Index<D>, id: string)
    requires Inv(l, s) && id in s.records && s.records[id].state.Idle?
    ensures var (t, outcome) := Evict(l, s, id);
            && outcome.Success? && t.records == s.records - {id}
            && (forall q :: q in t.owners <==> q in s.owners && s.owners[q] != id)
            && (forall q | q in t.owners :: t.owners[q] == s.owners[q])
            && (forall x | x in t.tombstones :: x in s.tombstones || x == id)
  {
    WithoutIs(s.tombstones, id);
    var kept := Without(s.tombstones, id) + [id];
    assert forall x | x in Buried(s.tombstones, id, l.tombstones) :: x in kept;
  }

  /** A plan made on the current state. */
  ghost predicate Fresh<D>(hash: seq<int> -> D, s: Index<D>, q: Request<D>, e: Evidence<D>, ids: seq<string>, p: Plan) {
    && IsCandidates(s, q.chainId, ids)
    && PlanAdmission(hash, s, q, e, ids).1 == Success(p)
  }

  lemma {:induction false} FreshPlanFacts<D>(hash: seq<int> -> D, s: Index<D>, q: Request<D>, e: Evidence<D>,
                                             ids: seq<string>, p: Plan)
    requires Fresh(hash, s, q, e, ids, p)
    ensures AllIdle(s, p.victims) && p.chainId !in p.victims && p.chainId == q.chainId && p.seqId == q.seqId
    ensures p.resumed <==> p.chainId in s.records
    ensures p.resumed ==>
              && s.records[p.chainId].state.Idle? && s.records[p.chainId].seqId == p.seqId
              && s.records[p.chainId].fingerprint == q.fingerprint
              && p.reused == s.records[p.chainId].processed <= p.inputCount
              && PrefixMatches(hash, s.records[p.chainId], e)
    ensures !p.resumed ==> p.chainId !in s.tombstones && p.reused == 0
  {
    hide VictimCount, Covers;
    assert Refusal(hash, s, q, e).None?;
  }

  /** Carrying out a plan on the state it was made on: a resumed chain always succeeds, a
      new one if and only if its sequence id is free or belongs to a victim.  Then exactly
      the victims are gone, the chain is active, and all other chains are as they were. */
  lemma {:induction false} FreshPlanApplies<D>(hash: seq<int> -> D, l: Limits, s: Index<D>, q: Request<D>, e: Evidence<D>,
                                               ids: seq<string>, p: Plan)
    requires Inv(l, s) && Fresh(hash, s, q, e, ids, p)
    ensures var (t, outcome) := ApplyAdmission(l, s, p, q.fingerprint);
            && (outcome.Success? <==> p.resumed || p.seqId !in s.owners || s.owners[p.seqId] in p.victims)
            && (outcome.Success? ==>
                  && outcome.value.state.Active? && outcome.value.processed == p.reused
                  && outcome.value.seqId == p.seqId
                  && t.records == (s.records - IdSet(p.victims))[p.chainId := outcome.value]
                  && (p.resumed ==> outcome.value.tokens == s.records[p.chainId].tokens
                                    && outcome.value.digest == s.records[p.chainId].digest))
  {
    hide PlanAdmission, Inv, EvictAll;
    FreshPlanFacts(hash, s, q, e, ids, p);
    EvictAllIs(l, s, p.victims);
  }

  // ----- Resident or buried -----

  /** No resident chain is also reported as gone. */
  ghost predicate Separate<D>(s: Index<D>) {
    forall id | id in s.tombstones :: id !in s.records
  }

  lemma {:induction false} DropKeepsSeparate<D>(l: Limits, s: Index<D>, id: string)
    requires Inv(l, s) && Separate(s) && id in s.records
    ensures Separate(Drop(l, s, id))
  {
    WithoutIs(s.tombstones, id);
    var kept := Without(s.tombstones, id) + [id];
    assert forall x | x in Buried(s.tombstones, id, l.tombstones) :: x in kept;
  }

  lemma {:induction false} EvictAllKeepsSeparate<D>(l: Limits, s: Index<D>, ids: seq<string>)
    requires Inv(l, s) && Separate(s)
    ensures Separate(EvictAll(l, s, ids).0)
    decreases |ids|
  {
    if ids != [] {
      hide Inv, Separate;
      EvictKeepsSeparate(l, s, ids[0]);
      EvictKeeps(l, s, ids[0]);
      if Evict(l, s, ids[0]).1.Success? {
        EvictAllKeepsSeparate(l, Evict(l, s, ids[0]).0, ids[1..]);
      }
    }
  }

  lemma {:induction false} EvictKeepsSeparate<D>(l: Limits, s: Index<D>, id: string)
    requires Inv(l, s) && Separate(s)
    ensures Separate(Evict(l, s, id).0)
  {
    if id in s.records {
      DropKeepsSeparate(l, s, id);
    }
  }

  /** Evictions in turn succeed exactly for distinct idle chains, and bury them in order. */
  lemma {:induction false} EvictAllIff<D>(l: Limits, s: Index<D>, ids: seq<string>)
    requires Inv(l, s)
    ensures EvictAll(l, s, ids).1.None? <==> AllIdle(s, ids)
    ensures AllIdle(s, ids) ==> EvictAll(l, s, ids).0.tombstones == Bury(s.tombstones, ids, l.tombstones)
    decreases |ids|
  {
    hide *;
    if ids == [] {
      EvictNone(l, s);
      NoneIdle(s, l.tombstones);
    } else {
      IdleFirstIff(l, s, ids);
      if Evict(l, s, ids[0]).1.Success? {
        EvictOne(l, s, ids[0]);
        EvictKeeps(l, s, ids[0]);
        EvictAllIff(l, Evict(l, s, ids[0]).0, ids[1..]);
        EvictAllNext(l, s, ids);
        IdleRestIff(s, ids, Evict(l, s, ids[0]).0);
        BuryOne(s.tombstones, ids[0], l.tombstones);
        BuryMore(s.tombstones, [ids[0]], ids[1..], l.tombstones);
        assert ids == [ids[0]] + ids[1..];
      }
    }
  }

  lemma {:induction false} NoneIdle<D>(s: Index<D>, limit: nat)
    ensures AllIdle(s, []) && Bury(s.tombstones, [], limit) == s.tombstones
  {
  }

  lemma {:induction false} IdleFirstIff<D>(l: Limits, s: Index<D>, ids: seq<string>)
    requires ids != []
    ensures Evict(l, s, ids[0]).1.Success? <==> ids[0] in s.records && s.records[ids[0]].state.Idle?
    ensures Evict(l, s, ids[0]).1.Failure? ==> EvictAll(l, s, ids).1.Some? && !AllIdle(s, ids)
    ensures Evict(l, s, ids[0]).1.Success? ==>
              Evict(l, s, ids[0]).0.tombstones == Buried(s.tombstones, ids[0], l.tombstones)
  {
    hide Buried;
  }

  lemma {:induction false} IdleRestIff<D>(s: Index<D>, ids: seq<string>, t: Index<D>)
    requires ids != [] && t.records == s.records - {ids[0]}
    requires ids[0] in s.records && s.records[ids[0]].state.Idle?
    ensures AllIdle(s, ids) <==> AllIdle(t, ids[1..])
  {
    assert forall i | 0 <= i < |ids| - 1 :: ids[1..][i] == ids[i + 1];
    if AllIdle(t, ids[1..]) {
      forall i, j | 0 <= i < j < |ids| ensures ids[i] != ids[j] {
        assert ids[j] == ids[1..][j - 1];
        assert i > 0 ==> ids[i] == ids[1..][i - 1];
      }
      forall i | 0 <= i < |ids| ensures ids[i] in s.records && s.records[ids[i]].state.Idle? {
        assert i > 0 ==> ids[i] == ids[1..][i - 1];
      }
    }
  }

  /** The plan was outdated in a way that brings a buried id back: it creates a chain that has
      gone since, or that it evicts itself.  All of this is visible before the call: its
      victims are distinct idle chains, its sequence id is free or a victim's, the chain is
      not resident unless it is a victim, and its id is among the last ones to go. */
  ghost predicate Revives<D>(l: Limits, s: Index<D>, p: Plan) {
    && !p.resumed && AllIdle(s, p.victims)
    && (p.seqId !in s.owners || s.owners[p.seqId] in p.victims)
    && (p.chainId !in s.records || p.chainId in p.victims)
    && p.chainId in Bury(s.tombstones, p.victims, l.tombstones)
  }

  lemma {:induction false} CreateIff<D>(s: Index<D>, p: Plan, fingerprint: D)
    requires Separate(s)
    ensures Create(s, p, fingerprint).1.Success? <==> p.chainId !in s.records && p.seqId !in s.owners
    ensures Separate(Create(s, p, fingerprint).0) <==>
            !(p.chainId !in s.records && p.seqId !in s.owners && p.chainId in s.tombstones)
  {
  }

  lemma {:induction false} ResumeKeepsSeparate<D>(s: Index<D>, p: Plan)
    requires Separate(s)
    ensures Separate(Resume(s, p).0)
  {
  }

  lemma {:induction false} ApplySeparate<D>(l: Limits, s: Index<D>, p: Plan, fingerprint: D)
    requires Inv(l, s) && Separate(s)
    ensures Separate(ApplyAdmission(l, s, p, fingerprint).0) <==> !Revives(l, s, p)
  {
    hide Inv, EvictAll, Bury, Separate, Create, Resume, AllIdle;
    var t := EvictAll(l, s, p.victims).0;
    EvictAllKeepsSeparate(l, s, p.victims);
    EvictAllIff(l, s, p.victims);
    CreateIff(t, p, fingerprint);
    ResumeKeepsSeparate(t, p);
    if AllIdle(s, p.victims) {
      EvictAllIs(l, s, p.victims);
    }
  }

  /** Exactly the calls that carry out such a plan make an id both resident and gone. */
  lemma {:induction false} SeparateUnlessRevived<D>(hash: seq<int> -> D, l: Limits, s: Index<D>, step: Step<D>)
    requires Inv(l, s) && Separate(s)
    ensures Separate(After(hash, l, s, step)) <==> !(step.DoApply? && Revives(l, s, step.plan))
  {
    hide Inv, Revives, ApplyAdmission, Buried;
    match step
    case DoApply(p, fingerprint) => ApplySeparate(l, s, p, fingerprint);
    case DoInvalidate(id) => if id in s.records { DropKeepsSeparate(l, s, id); }
    case DoEvict(id) => if id in s.records { DropKeepsSeparate(l, s, id); }
    case DoPlan(_, _) =>
    case DoFinish(_, _, _, _, _) =>
    case DoFinishDigest(_, _, _, _, _) =>
    case DoRemember(_, _, _, _) =>
    case DoReset =>
  }

  lemma {:induction false} BuriedAmong(ids: seq<string>, id: string, limit: nat, x: string)
    requires x in Buried(ids, id, limit)
    ensures x in ids || x == id
  {
    var kept := Without(ids, id) + [id];
    assert x in kept;
    WithoutAmong(ids, id, x);
  }

  lemma {:induction false} WithoutAmong(ids: seq<string>, id: string, x: string)
    ensures x in Without(ids, id) ==> x in ids
  {
    if ids != [] {
      var n := |ids| - 1;
      WithoutAmong(ids[..n], id, x);
      assert ids == ids[..n] + [ids[n]];
    }
  }

  lemma {:induction false} BuryAmong(ids: seq<string>, removed: seq<string>, limit: nat, x: string)
    requires x in Bury(ids, removed, limit)
    ensures x in ids || x in removed
  {
    if removed != [] {
      hide Buried;
      var n := |removed| - 1;
      BuriedAmong(Bury(ids, removed[..n], limit), removed[n], limit, x);
      assert removed == removed[..n] + [removed[n]];
      if x != removed[n] {
        BuryAmong(ids, removed[..n], limit, x);
      }
    }
  }

  /** A plan carried out on the state it was made on brings nothing back. */
  lemma {:induction false} FreshNeverRevives<D>(hash: seq<int> -> D, l: Limits, s: Index<D>, q: Request<D>,
                                                e: Evidence<D>, ids: seq<string>, p: Plan)
    requires Fresh(hash, s, q, e, ids, p)
    ensures !Revives(l, s, p)
  {
    hide PlanAdmission, Bury, AllIdle;
    FreshPlanFacts(hash, s, q, e, ids, p);
    if p.chainId in Bury(s.tombstones, p.victims, l.tombstones) {
      BuryAmong(s.tombstones, p.victims, l.tombstones, p.chainId);
    }
  }

  lemma {:induction false} FreshPlanKeepsSeparate<D>(hash: seq<int> -> D, l: Limits, s: Index<D>, q: Request<D>,
                                                     e: Evidence<D>, ids: seq<string>, p: Plan, fingerprint: D)
    requires Inv(l, s) && Separate(s) && Fresh(hash, s, q, e, ids, p)
    ensures Separate(After(hash, l, s, DoApply(p, fingerprint)))
  {
    hide *;
    FreshNeverRevives(hash, l, s, q, e, ids, p);
    SeparateUnlessRevived(hash, l, s, DoApply(p, fingerprint));
  }

  /** Each plan in a run is carried out on the state it was made on. */
  ghost predicate FreshRun<D(!new)>(hash: seq<int> -> D, l: Limits, steps: seq<Step<D>>) {
    forall n | 0 <= n < |steps| && steps[n].DoApply? ::
      exists q: Request<D>, e: Evidence<D>, ids: seq<string> ::
        Fresh(hash, Run(hash, l, Empty(), steps[..n]), q, e, ids, steps[n].plan)
  }

  /** So over such runs no id is ever both resident and reported as gone. */
  lemma {:induction false} FreshRunStaysSeparate<D(!new)>(hash: seq<int> -> D, l: Limits, steps: seq<Step<D>>)
    requires FreshRun(hash, l, steps)
    ensures Separate(Run(hash, l, Empty(), steps))
  {
    hide Inv, Fresh, After, Revives;
    if steps == [] {
      NothingBuried<D>();
    } else {
      var n := |steps| - 1;
      var s := Run(hash, l, Empty(), steps[..n]);
      assert forall k | 0 <= k < n :: steps[..n][k] == steps[k] && steps[..n][..k] == steps[..k];
      FreshRunStaysSeparate(hash, l, steps[..n]);
      ReachableInv(hash, l, steps[..n]);
      if steps[n].DoApply? {
        var q: Request<D>, e: Evidence<D>, ids: seq<string> :| Fresh(hash, s, q, e, ids, steps[n].plan);
        FreshPlanKeepsSeparate(hash, l, s, q, e, ids, steps[n].plan, steps[n].fingerprint);
      } else {
        SeparateUnlessRevived(hash, l, s, steps[n]);
      }
    }
  }

  lemma {:induction false} NothingBuried<D>()
    ensures Separate(Empty<D>())
  {
  }

  // ----- An outdated plan -----

  /** Two plans for the same new chain are made; the first is carried out, the chain finishes
      its turn and is evicted, and then the second plan is carried out. */
  function TwoPlans(id: string, p: Plan, fingerprint: int): seq<Step<int>> {
    [DoPlan(Request(id, 7, fingerprint, [], 0, [], 0), Tokens([])),
     DoPlan(Request(id, 7, fingerprint, [], 0, [], 0), Tokens([])),
     DoApply(p, fingerprint), DoFinish(id, [], 0, [], 1), DoEvict(id), DoApply(p, fingerprint)]
  }

  lemma {:induction false} OutdatedPlanRevives(hash: seq<int> -> int, l: Limits, id: string, fingerprint: int)
    requires l.tombstones > 0
    ensures exists p: Plan ::
              && Fresh(hash, Empty(), Request(id, 7, fingerprint, [], 0, [], 0), Tokens([]), [], p)
              && !Separate(Run(hash, l, Empty(), TwoPlans(id, p, fingerprint)))
  {
    var q := Request(id, 7, fingerprint, [], 0, [], 0);
    var p := Plan(id, 7, false, 0, 0, [], [], 0);
    var steps := TwoPlans(id, p, fingerprint);
    var s0: Index<int> := Empty();
    assert Fresh(hash, s0, q, Tokens([]), [], p);
    assert steps[..0] == [];
    StepOf(hash, l, steps, 0);
    StepOf(hash, l, steps, 1);
    StepOf(hash, l, steps, 2);
    StepOf(hash, l, steps, 3);
    StepOf(hash, l, steps, 4);
    StepOf(hash, l, steps, 5);
    assert steps[..6] == steps;
    var s2 := After(hash, l, s0, steps[2]);
    Outdated(hash, l, id, fingerprint, p, s2);
  }

  lemma {:induction false} StepOf<D>(hash: seq<int> -> D, l: Limits, steps: seq<Step<D>>, n: nat)
    requires n < |steps|
    ensures Run(hash, l, Empty(), steps[..n + 1]) == After(hash, l, Run(hash, l, Empty(), steps[..n]), steps[n])
  {
    assert steps[..n + 1][..n] == steps[..n];
  }

  lemma {:induction false} Outdated(hash: seq<int> -> int, l: Limits, id: string, fingerprint: int, p: Plan, s2: Index<int>)
    requires l.tombstones > 0 && p == Plan(id, 7, false, 0, 0, [], [], 0)
    requires s2 == Create<int>(Empty(), p, fingerprint).0
    ensures var s3 := After(hash, l, s2, DoFinish(id, [], 0, [], 1));
            var s4 := After(hash, l, s3, DoEvict(id));
            !Separate(After(hash, l, s4, DoApply(p, fingerprint)))
  {
    var s3 := After(hash, l, s2, DoFinish(id, [], 0, [], 1));
    assert id in s3.records && s3.records[id].state.Idle?;
    var s4 := After(hash, l, s3, DoEvict(id));
    assert s4.records == map[] && s4.owners == map[] && s4.tombstones == [id];
    var s5 := After(hash, l, s4, DoApply(p, fingerprint));
    assert id in s5.records && id in s5.tombstones;
  }

  // ----- Active chains are pinned -----

  lemma {:induction false} EvictAllPins<D>(l: Limits, s: Index<D>, ids: seq<string>, id: string)
    requires id in s.records && s.records[id].state.Active?
    ensures var t := EvictAll(l, s, ids).0; id in t.records && t.records[id] == s.records[id]
    decreases |ids|
  {
    if ids != [] && Evict(l, s, ids[0]).1.Success? {
      EvictAllPins(l, Evict(l, s, ids[0]).0, ids[1..], id);
    }
  }

  predicate EndsTurn<D>(step: Step<D>, id: string) {
    match step
    case DoFinish(x, _, _, _, _) => x == id
    case DoFinishDigest(x, _, _, _, _) => x == id
    case DoInvalidate(x) => x == id
    case DoReset => true
    case _ => false
  }

  /** Nothing but the end of its own turn, its own invalidation or a reset touches the record
      of an active chain: no plan, no eviction, no second writer. */
  lemma {:induction false} ActiveIsPinned<D>(hash: seq<int> -> D, l: Limits, s: Index<D>, step: Step<D>, id: string)
    requires id in s.records && s.records[id].state.Active? && !EndsTurn(step, id)
    ensures var t := After(hash, l, s, step); id in t.records && t.records[id] == s.records[id]
  {
    hide EvictAll, Buried;
    match step
    case DoApply(p, fingerprint) => EvictAllPins(l, s, p.victims, id);
    case DoInvalidate(_) =>
    case DoEvict(_) =>
    case DoPlan(_, _) =>
    case DoFinish(_, _, _, _, _) =>
    case DoFinishDigest(_, _, _, _, _) =>
    case DoRemember(_, _, _, _) =>
    case DoReset =>
  }

  /** A call that raises leaves no trace but a counter, except that carrying out a plan may
      already have evicted victims. */
  lemma {:induction false} RaisingLeavesState<D>(hash: seq<int> -> D, l: Limits, s: Index<D>, id: string, seqId: int,
                                                 tokens: seq<int>, digest: D, count: int, slots: seq<nat>, rows: nat)
    ensures var (t, outcome) := Finish(hash, l, s, id, tokens, count, slots, rows); outcome.Failure? ==> t == s
    ensures var (t, outcome) := FinishDigest(s, id, digest, count, slots, rows); outcome.Failure? ==> t == s
    ensures var (t, outcome) := FinishValues(s, id, seqId, digest, count, slots); outcome.Failure? ==> t == s
    ensures var (t, outcome) := Remember(hash, l, s, id, seqId, tokens, count); outcome.Failure? ==> t == s
    ensures var (t, outcome) := Evict(l, s, id); outcome.Failure? ==> t == s
    ensures var (t, outcome) := Invalidate(l, s, id); outcome.Failure? ==> t == s
  {
  }

  /** The call evicts the chain and creates another one under its id. */
  predicate Recreates<D>(step: Step<D>, id: string) {
    step.DoApply? && !step.plan.resumed && step.plan.chainId == id && id in step.plan.victims
  }

  /** The processed boundary of a chain never moves back while it is resident: a record that
      is still there afterwards has it where it was or further on, or belongs to a new chain
      under the same id, which has processed nothing. */
  lemma {:induction false} BoundaryAdvances<D>(hash: seq<int> -> D, l: Limits, s: Index<D>, step: Step<D>, id: string)
    requires Inv(l, s) && id in s.records && id in After(hash, l, s, step).records
    ensures var t := After(hash, l, s, step);
            || s.records[id].processed <= t.records[id].processed
            || (Recreates(step, id) && t.records[id].processed == 0 && t.records[id].state.Active?)
  {
    hide EvictAll, Buried, Inv;
    match step
    case DoApply(p, fingerprint) =>
      if id in p.victims {
        EvictAllFate(l, s, p.victims, id);
      } else {
        EvictAllSpares(l, s, p.victims, id);
      }
    case DoInvalidate(_) =>
    case DoEvict(_) =>
    case DoPlan(_, _) =>
    case DoFinish(_, _, _, _, _) =>
    case DoFinishDigest(_, _, _, _, _) =>
    case DoRemember(_, _, _, _) =>
    case DoReset =>
  }

  /** A victim is gone or, if the evictions stopped before it, untouched. */
  lemma {:induction false} EvictAllFate<D>(l: Limits, s: Index<D>, ids: seq<string>, id: string)
    requires id in s.records && id in ids
    ensures var (t, error) := EvictAll(l, s, ids);
            if id in t.records then error.Some? && t.records[id] == s.records[id] else true
    decreases |ids|
  {
    hide Buried;
    if Evict(l, s, ids[0]).1.Success? {
      assert ids == [ids[0]] + ids[1..];
      var t := Evict(l, s, ids[0]).0;
      if ids[0] == id {
        StaysGone(l, t, ids[1..], id);
      } else {
        EvictAllFate(l, t, ids[1..], id);
      }
    }
  }

  lemma {:induction false} StaysGone<D>(l: Limits, s: Index<D>, ids: seq<string>, id: string)
    requires id !in s.records
    ensures id !in EvictAll(l, s, ids).0.records
    decreases |ids|
  {
    hide Buried;
    if ids != [] && Evict(l, s, ids[0]).1.Success? {
      StaysGone(l, Evict(l, s, ids[0]).0, ids[1..], id);
    }
  }

  lemma {:induction false} EvictAllSpares<D>(l: Limits, s: Index<D>, ids: seq<string>, id: string)
    requires id in s.records && id !in ids
    ensures var t := EvictAll(l, s, ids).0; id in t.records && t.records[id] == s.records[id]
    decreases |ids|
  {
    if ids != [] && Evict(l, s, ids[0]).1.Success? {
      assert ids == [ids[0]] + ids[1..];
      EvictAllSpares(l, Evict(l, s, ids[0]).0, ids[1..], id);
    }
  }
}
