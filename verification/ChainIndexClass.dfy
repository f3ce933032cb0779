/** `ChainCacheIndex`: the fields, and the methods that update them, proved against the
    functions of the chain index. */
module ChainIndexClass {
  import opened ChainIndex
  import opened ChainIndexTheorems
  import opened ChainIndexPlans
  import opened Sequences
  import opened Strings
  import opened Wrappers

  class ChainCacheIndex<D(==)> {
    const limits: Limits
    const hash: seq<int> -> D
    var records: map<string, Record<D>>
    var owners: map<int, string>
    var tombstones: seq<string>
    var clock: nat
    var history: int
    var stats: Stats

    ghost function View(): Index<D>
      reads this
    {
      Index(records, owners, tombstones, clock, history, stats)
    }

    ghost predicate Valid()
      reads this
    {
      limits.tombstones > 0 && Inv(limits, View())
    }

    /** The program raises for limits that are not positive. */
    constructor (limits: Limits, hash: seq<int> -> D)
      requires limits.tombstones > 0 && (limits.history.Some? ==> limits.history.value > 0)
      ensures Valid() && View() == Empty() && this.limits == limits && this.hash == hash
    {
      this.limits, this.hash := limits, hash;
      records, owners, tombstones, clock, history := map[], map[], [], 0, 0;
      stats := Stats(0, 0, 0, 0, 0, 0, 0);
      new;
      EmptyInv<D>(limits);
    }

    /** `_add_tombstone`: at the end of the list, and the oldest ones make room. */
    method AddTombstone(id: string)
      requires |tombstones| <= limits.tombstones
      modifies this`tombstones, this`clock
      ensures tombstones == Buried(old(tombstones), id, limits.tombstones) && clock == old(clock) + 1
    {
      clock := clock + 1;
      tombstones := Without(tombstones, id) + [id];
      ghost var all := tombstones;
      while |tombstones| > limits.tombstones
        invariant clock == old(clock) + 1
        invariant |tombstones| <= |all| && tombstones == all[|all| - |tombstones|..]
        invariant |all| > limits.tombstones ==> |tombstones| >= limits.tombstones
        invariant |all| <= limits.tombstones ==> tombstones == all
      {
        tombstones := tombstones[1..];
      }
    }

    /** What eviction and invalidation share. */
    method Remove(id: string)
      requires id in records && |tombstones| <= limits.tombstones
      modifies this`records, this`owners, this`tombstones, this`clock, this`history
      ensures View() == Drop(limits, old(View()), id)
    {
      var record := records[id];
      history := history - |record.tokens|;
      records := records - {id};
      owners := owners - {record.seqId};
      AddTombstone(id);
    }

    method InvalidateChain(id: string) returns (r: Result<Record<D>, ChainError>)
      requires Valid()
      modifies this
      ensures Valid()
      ensures View() == Invalidate(limits, old(View()), id).0
      ensures r == Invalidate(limits, old(View()), id).1
    {
      hide Inv, Buried;
      BoundedTombstones(limits, View());
      InvalidateKeeps(limits, View(), id);
      if id !in records {
        return Failure(if id in tombstones then Gone else NotFound);
      }
      r := Success(records[id].(tokens := []));
      Remove(id);
      stats := stats.(invalidated := stats.invalidated + 1);
    }

    method EvictChain(id: string) returns (r: Result<Record<D>, ChainError>)
      requires Valid()
      modifies this
      ensures Valid()
      ensures View() == Evict(limits, old(View()), id).0
      ensures r == Evict(limits, old(View()), id).1
    {
      hide Inv, Buried;
      BoundedTombstones(limits, View());
      EvictKeeps(limits, View(), id);
      if id !in records {
        return Failure(if id in tombstones then Gone else NotFound);
      }
      if records[id].state.Active? {
        return Failure(Busy);
      }
      r := Success(records[id].(tokens := []));
      Remove(id);
      stats := stats.(evicted := stats.evicted + 1);
    }

    // ----- Planning -----

    /** The idle chains other than one, sorted. */
    method SortedCandidates(forChain: string) returns (ids: seq<string>)
      ensures IsCandidates(View(), forChain, ids)
    {
      ids := [];
      var rest := set id | id in records && records[id].state.Idle? && id != forChain;
      while rest != {}
        invariant forall id :: Evictable(View(), id, forChain) <==> id in ids || id in rest
        invariant forall i | 0 <= i < |ids| :: ids[i] !in rest
        invariant NoDuplicates(ids)
        invariant forall i, j | 0 <= i < j < |ids| :: Before(View(), ids[i], ids[j])
        invariant forall i, id | 0 <= i < |ids| && id in rest :: Before(View(), ids[i], id)
      {
        var first := LeastRecent(rest);
        ids := ids + [first];
        rest := rest - {first};
      }
    }

    method LeastRecent(some: set<string>) returns (first: string)
      requires some != {} && forall id | id in some :: id in records
      ensures first in some && forall id | id in some :: Before(View(), first, id)
    {
      first :| first in some;
      var unseen := some - {first};
      LexReflexive(first);
      while unseen != {}
        invariant first in some && unseen <= some
        invariant forall id | id in some && id !in unseen :: Before(View(), first, id)
        decreases unseen
      {
        var id :| id in unseen;
        unseen := unseen - {id};
        BeforeOrders(View(), id, first);
        if records[id].lastAccess < records[first].lastAccess
           || (records[id].lastAccess == records[first].lastAccess && LexLeq(id, first)) {
          forall x | x in some && x !in unseen ensures Before(View(), id, x) {
            LexReflexive(id);
            if x != id {
              BeforeTransitive(View(), id, first, x);
            }
          }
          first := id;
        }
      }
    }

    /** The loop over the layers. */
    method ReduceNeeds(needs: seq<nat>, freed: seq<nat>) returns (left: seq<nat>)
      ensures left == Reduced(needs, freed)
    {
      left := needs;
      for layer := 0 to |needs|
        invariant |left| == |needs|
        invariant forall i | 0 <= i < |needs| :: left[i] == if i < layer then Reduced(needs, freed)[i] else needs[i]
      {
        var resident := if layer < |freed| then freed[layer] else 0;
        var needed: int := left[layer];
        left := left[layer := AtLeastZero(needed - resident)];
      }
    }

    /** The loop over the candidates. */
    method ChooseVictims(ids: seq<string>, needSlots: seq<nat>, needRows: nat)
      returns (victims: seq<string>, slots: seq<nat>, rows: nat)
      requires forall id | id in ids :: id in records
      ensures victims == ids[..VictimCount(View(), ids, needSlots, needRows)]
      ensures (slots, rows) == Remaining(View(), victims, needSlots, needRows)
    {
      victims, slots, rows := [], needSlots, needRows;
      assert ids[0..] == ids;
      while |victims| < |ids| && !Satisfied(slots, rows)
        invariant |victims| <= |ids| && victims == ids[..|victims|]
        invariant (slots, rows) == Remaining(View(), victims, needSlots, needRows)
        invariant VictimCount(View(), ids, needSlots, needRows) == |victims| + VictimCount(View(), ids[|victims|..], slots, rows)
        decreases |ids| - |victims|
      {
        var id := ids[|victims|];
        RemainingNext(View(), ids, |victims|, needSlots, needRows);
        CountNext(View(), ids, |victims|, slots, rows);
        victims := victims + [id];
        slots := ReduceNeeds(slots, records[id].slots);
        rows := AtLeastZero(rows - records[id].rows);
      }
      CountEnds(View(), ids[|victims|..], slots, rows);
    }

    /** Checks a request, and counts busy chains and mismatches. */
    method RefuseRequest(q: Request<D>, e: Evidence<D>) returns (error: Option<ChainError>)
      modifies this`stats
      ensures error == Refusal(hash, old(View()), q, e)
      ensures View() == if error.Some? then CountError(old(View()), error.value) else old(View())
    {
      hide CheckResume;
      if q.chainId in records {
        error := CheckResume(hash, records[q.chainId], q, e);
        if error == Some(Busy) {
          stats := stats.(busy := stats.busy + 1);
        } else if error == Some(PrefixMismatch) {
          stats := stats.(mismatch := stats.mismatch + 1);
        }
      } else {
        error := if q.chainId in tombstones then Some(Gone) else None;
      }
    }

    /** `_plan_admission`, with the candidates it went through. */
    method MakePlan(q: Request<D>, e: Evidence<D>) returns (r: Result<Plan, ChainError>, ghost ids: seq<string>)
      requires Valid()
      modifies this`stats
      ensures Valid() && IsCandidates(old(View()), q.chainId, ids)
      ensures forall id | id in ids :: id in old(View()).records
      ensures View() == PlanAdmission(hash, old(View()), q, e, ids).0
      ensures r == PlanAdmission(hash, old(View()), q, e, ids).1
    {
      hide Inv, VictimCount, Covers, IsCandidates, Refusal, CountError;
      ghost var before := View();
      PlanKeeps(hash, limits, before, q, e, []);
      var sorted := SortedCandidates(q.chainId);
      ids := sorted;
      CandidatesAreRecords(before, q.chainId, sorted);
      SameAfterPlan(hash, before, q, e, sorted);
      var error := RefuseRequest(q, e);
      if error.Some? {
        return Failure(error.value), ids;
      }
      var victims, slots, rows := ChooseVictims(sorted, Floors(q.needSlots), AtLeastZero(q.needRows));
      CoversIs(before, victims, Floors(q.needSlots), AtLeastZero(q.needRows));
      if !Satisfied(slots, rows) {
        return Failure(NoCapacity), ids;
      }
      var resumed := q.chainId in records;
      r := Success(Plan(q.chainId, q.seqId, resumed, if resumed then records[q.chainId].processed else 0,
                        InputCount(e), victims, Floors(q.reserveSlots), AtLeastZero(q.reserveRows)));
    }

    // ----- Carrying out a plan -----

    method CarryOut(p: Plan, fingerprint: D) returns (r: Result<Record<D>, ChainError>)
      requires Valid()
      modifies this
      ensures Valid()
      ensures View() == ApplyAdmission(limits, old(View()), p, fingerprint).0
      ensures r == ApplyAdmission(limits, old(View()), p, fingerprint).1
    {
      ghost var before := View();
      hide Inv, Evict, EvictAll, Create, Resume;
      var i := 0;
      assert p.victims[0..] == p.victims;
      while i < |p.victims|
        invariant 0 <= i <= |p.victims| && Valid()
        invariant EvictAll(limits, before, p.victims) == EvictAll(limits, View(), p.victims[i..])
      {
        ghost var now := View();
        EvictNext(limits, now, p.victims[i..]);
        var evicted := EvictChain(p.victims[i]);
        if evicted.Failure? {
          return Failure(evicted.error);
        }
        assert p.victims[i..][1..] == p.victims[i + 1..];
        i := i + 1;
      }
      EvictNone(limits, View());
      assert p.victims[i..] == [];
      if !p.resumed {
        r := CreateChain(p, fingerprint);
      } else {
        r := ResumeChain(p);
      }
    }

    method CreateChain(p: Plan, fingerprint: D) returns (r: Result<Record<D>, ChainError>)
      requires Valid()
      modifies this
      ensures Valid()
      ensures View() == Create(old(View()), p, fingerprint).0
      ensures r == Create(old(View()), p, fingerprint).1
    {
      hide Inv;
      CreateKeeps(limits, View(), p, fingerprint);
      if p.chainId in records || p.seqId in owners {
        return Failure(OtherOwner);
      }
      clock := clock + 1;
      var record := NewRecord(p, fingerprint, clock);
      records := records[p.chainId := record];
      owners := owners[p.seqId := p.chainId];
      stats := stats.(created := stats.created + 1);
      r := Success(record);
    }

    method ResumeChain(p: Plan) returns (r: Result<Record<D>, ChainError>)
      requires Valid()
      modifies this
      ensures Valid()
      ensures View() == Resume(old(View()), p).0
      ensures r == Resume(old(View()), p).1
    {
      hide Inv;
      ResumeKeeps(limits, View(), p);
      if p.chainId !in records {
        return Failure(if p.chainId in tombstones then Gone else NotFound);
      }
      if records[p.chainId].state.Active? {
        return Failure(Busy);
      }
      clock := clock + 1;
      var record := ResumedRecord(records[p.chainId], p, clock);
      records := records[p.chainId := record];
      stats := stats.(resumed := stats.resumed + 1);
      r := Success(record);
    }

    // ----- The end of a turn -----

    /** `_prepare_token_history`: checks only. */
    method PrepareTokenHistory(record: Record<D>, tokens: seq<int>, count: int) returns (error: Option<ChainError>)
      ensures error == HistoryError(limits, View(), record, tokens, count)
    {
      if count < 0 {
        return Some(BadCount);
      }
      for i := 0 to |tokens|
        invariant Storable(tokens[..i])
      {
        if tokens[i] < 0 || tokens[i] > MAX_TOKEN {
          return Some(OtherOwner);
        }
      }
      assert tokens[..|tokens|] == tokens;
      if |tokens| < count {
        return Some(OtherOwner);
      }
      var needed := history - |record.tokens| + |tokens|;
      if limits.history.Some? && needed > limits.history.value {
        return Some(NoCapacity);
      }
      return None;
    }

    method FinishWithDigest(id: string, digest: D, count: int, slots: seq<nat>, rows: nat)
      returns (r: Result<Record<D>, ChainError>)
      requires Valid()
      modifies this
      ensures Valid()
      ensures View() == FinishDigest(old(View()), id, digest, count, slots, rows).0
      ensures r == FinishDigest(old(View()), id, digest, count, slots, rows).1
    {
      hide Inv;
      FinishDigestKeeps(limits, View(), id, digest, count, slots, rows);
      if id !in records {
        return Failure(if id in tombstones then Gone else NotFound);
      }
      if records[id].state.Idle? || count < records[id].processed {
        return Failure(OtherOwner);
      }
      clock := clock + 1;
      var record := FinishedRecord(records[id], digest, count, slots, rows, clock);
      records := records[id := record];
      stats := stats.(finished := stats.finished + 1);
      r := Success(record);
    }

    /** `finish`: everything is checked before anything changes, so it happens as a whole or
        not at all. */
    method FinishChain(id: string, tokens: seq<int>, count: int, slots: seq<nat>, rows: nat)
      returns (r: Result<Record<D>, ChainError>)
      requires Valid()
      modifies this
      ensures Valid()
      ensures View() == Finish(hash, limits, old(View()), id, tokens, count, slots, rows).0
      ensures r == Finish(hash, limits, old(View()), id, tokens, count, slots, rows).1
      ensures r.Failure? ==> View() == old(View())
    {
      hide Inv, FinishDigest, HistoryError;
      FinishKeeps(hash, limits, View(), id, tokens, count, slots, rows);
      if id !in records {
        return Failure(if id in tombstones then Gone else NotFound);
      }
      var error := PrepareTokenHistory(records[id], tokens, count);
      if error.Some? {
        return Failure(error.value);
      }
      CountFits(limits, View(), records[id], tokens, count);
      FinishOrNot(View(), id, hash(tokens[..count]), count, slots, rows);
      r := FinishWithDigest(id, hash(tokens[..count]), count, slots, rows);
      if r.Failure? {
        return;
      }
      StoreTokenHistory(id, tokens);
      r := Success(records[id]);
    }

    method StoreTokenHistory(id: string, tokens: seq<int>)
      requires id in records
      modifies this`records, this`history
      ensures View() == Store(old(View()), id, tokens)
    {
      history := history - |records[id].tokens|;
      records := records[id := records[id].(tokens := tokens)];
      history := history + |tokens|;
    }
  }

  // ----- Steps of the loops -----

  lemma {:induction false} CountFits<D>(l: Limits, s: Index<D>, r: Record<D>, tokens: seq<int>, count: int)
    requires HistoryError(l, s, r, tokens, count).None?
    ensures 0 <= count <= |tokens|
  {
  }

  lemma {:induction false} FinishOrNot<D>(s: Index<D>, id: string, digest: D, count: int, slots: seq<nat>, rows: nat)
    ensures var (t, outcome) := FinishDigest(s, id, digest, count, slots, rows);
            if outcome.Failure? then t == s else id in t.records
  {
  }

  lemma {:induction false} BoundedTombstones<D>(l: Limits, s: Index<D>)
    requires Inv(l, s)
    ensures |s.tombstones| <= l.tombstones
  {
  }

  lemma {:induction false} LexReflexive(a: string)
    ensures LexLeq(a, a)
  {
    LexTotal(a, a);
  }

  lemma {:induction false} BeforeOrders<D>(s: Index<D>, a: string, b: string)
    requires a in s.records && b in s.records
    ensures Before(s, a, b) || Before(s, b, a)
  {
    LexTotal(a, b);
  }

  lemma {:induction false} BeforeTransitive<D>(s: Index<D>, a: string, b: string, c: string)
    requires a in s.records && b in s.records && c in s.records && Before(s, a, b) && Before(s, b, c)
    ensures Before(s, a, c)
  {
    if s.records[a].lastAccess == s.records[b].lastAccess == s.records[c].lastAccess {
      LexTransitive(a, b, c);
    }
  }

  lemma {:induction false} RemainingNext<D>(s: Index<D>, ids: seq<string>, k: nat, slots: seq<nat>, rows: nat)
    requires (forall id | id in ids :: id in s.records) && k < |ids|
    ensures var left := Remaining(s, ids[..k], slots, rows);
            var r := s.records[ids[k]];
            Remaining(s, ids[..k] + [ids[k]], slots, rows) == (Reduced(left.0, r.slots), AtLeastZero(left.1 - r.rows))
  {
    if k > 0 {
      var r := s.records[ids[0]];
      RemainingNext(s, ids[1..], k - 1, Reduced(slots, r.slots), AtLeastZero(rows - r.rows));
      assert ids[..k][1..] == ids[1..][..k - 1];
      assert (ids[..k] + [ids[k]])[1..] == ids[1..][..k - 1] + [ids[1..][k - 1]];
    } else {
      assert ids[..0] == [] && [ids[0]][1..] == [];
    }
  }

  lemma {:induction false} CountNext<D>(s: Index<D>, ids: seq<string>, k: nat, slots: seq<nat>, rows: nat)
    requires (forall id | id in ids :: id in s.records) && k < |ids| && !Satisfied(slots, rows)
    ensures var r := s.records[ids[k]];
            VictimCount(s, ids[k..], slots, rows) ==
            1 + VictimCount(s, ids[k + 1..], Reduced(slots, r.slots), AtLeastZero(rows - r.rows))
  {
    assert ids[k..][1..] == ids[k + 1..];
  }

  lemma {:induction false} CountEnds<D>(s: Index<D>, ids: seq<string>, slots: seq<nat>, rows: nat)
    requires (forall id | id in ids :: id in s.records) && (ids == [] || Satisfied(slots, rows))
    ensures VictimCount(s, ids, slots, rows) == 0
  {
  }

  lemma {:induction false} CandidatesAreRecords<D>(s: Index<D>, forChain: string, ids: seq<string>)
    requires IsCandidates(s, forChain, ids)
    ensures forall id | id in ids :: id in s.records
  {
  }

  /** The candidates have no part in what a plan does to the state. */
  lemma {:induction false} SameAfterPlan<D>(hash: seq<int> -> D, s: Index<D>, q: Request<D>, e: Evidence<D>, ids: seq<string>)
    requires forall id | id in ids :: id in s.records
    ensures PlanAdmission(hash, s, q, e, ids).0 == PlanAdmission(hash, s, q, e, []).0
    ensures PlanAdmission(hash, s, q, e, ids).0 ==
            if Refusal(hash, s, q, e).Some? then CountError(s, Refusal(hash, s, q, e).value) else s
  {
    hide Refusal, VictimCount, Covers, CountError;
  }

  lemma {:induction false} CoversIs<D>(s: Index<D>, ids: seq<string>, slots: seq<nat>, rows: nat)
    requires forall id | id in ids :: id in s.records
    ensures Covers(s, ids, slots, rows) <==>
            Satisfied(Remaining(s, ids, slots, rows).0, Remaining(s, ids, slots, rows).1)
  {
  }

  lemma {:induction false} EvictNext<D>(l: Limits, s: Index<D>, ids: seq<string>)
    requires ids != []
    ensures EvictAll(l, s, ids) ==
            var (t, outcome) := Evict(l, s, ids[0]);
            if outcome.Failure? then (t, Some(outcome.error)) else EvictAll(l, t, ids[1..])
  {
  }
}
