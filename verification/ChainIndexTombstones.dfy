/** How long the chain index remembers that a chain has gone. */
module ChainIndexTombstones {
  import opened ChainIndex
  import opened ChainIndexTheorems
  import opened Sequences
  import opened Wrappers

  // ----- Burying one id after another -----

  function Bury(ids: seq<string>, removed: seq<string>, limit: nat): seq<string> {
    if removed == [] then ids
    else
      var n := |removed| - 1;
      Buried(Bury(ids, removed[..n], limit), removed[n], limit)
  }

  lemma {:induction false} BuryMore(ids: seq<string>, first: seq<string>, then_: seq<string>, limit: nat)
    ensures Bury(ids, first + then_, limit) == Bury(Bury(ids, first, limit), then_, limit)
  {
    if then_ == [] {
      assert first + then_ == first;
    } else {
      var n := |then_| - 1;
      BuryMore(ids, first, then_[..n], limit);
      assert (first + then_)[..|first| + n] == first + then_[..n];
    }
  }

  /** The ids in the order of their last removal. */
  function ByLastRemoval(removed: seq<string>): seq<string> {
    if removed == [] then []
    else
      var n := |removed| - 1;
      Without(ByLastRemoval(removed[..n]), removed[n]) + [removed[n]]
  }

  lemma {:induction false} ByLastRemovalIs(removed: seq<string>)
    ensures NoDuplicates(ByLastRemoval(removed))
    ensures forall id :: id in ByLastRemoval(removed) <==> id in removed
  {
    hide *;
    if removed == [] {
      NoRemovals();
    } else {
      var n := |removed| - 1;
      ByLastRemovalIs(removed[..n]);
      LastRemovalStep(removed, "");
      var front := ByLastRemoval(removed[..n]);
      WithoutIs(front, removed[n]);
      AppendDistinct(Without(front, removed[n]), removed[n]);
      Appended(removed[..n], removed[n]);
      Appended(Without(front, removed[n]), removed[n]);
      assert removed == removed[..n] + [removed[n]];
    }
  }

  lemma {:induction false} NoRemovals()
    ensures ByLastRemoval([]) == [] && NoDuplicates(ByLastRemoval([]))
  {
  }

  lemma {:induction false} Appended(ids: seq<string>, x: string)
    ensures forall id :: id in ids + [x] <==> id in ids || id == x
  {
  }

  lemma {:induction false} WithoutAppend(xs: seq<string>, ys: seq<string>, id: string)
    ensures Without(xs + ys, id) == Without(xs, id) + Without(ys, id)
  {
    if ys == [] {
      assert xs + ys == xs;
      assert Without([], id) == [];
    } else {
      hide Without;
      var n := |ys| - 1;
      WithoutAppend(xs, ys[..n], id);
      assert (xs + ys)[..|xs| + n] == xs + ys[..n];
      WithoutStep(ys, id);
      WithoutStep(xs + ys, id);
    }
  }

  lemma {:induction false} WithoutStep(xs: seq<string>, id: string)
    requires xs != []
    ensures var n := |xs| - 1;
            Without(xs, id) == if xs[n] == id then Without(xs[..n], id) else Without(xs[..n], id) + [xs[n]]
  {
    assert Without(xs[..|xs| - 1], id) + [] == Without(xs[..|xs| - 1], id);
  }

  lemma {:induction false} WithoutAbsent(xs: seq<string>, id: string)
    requires id !in xs
    ensures Without(xs, id) == xs
  {
    if xs != [] {
      hide Without;
      var n := |xs| - 1;
      assert xs == xs[..n] + [xs[n]];
      WithoutAbsent(xs[..n], id);
      WithoutStep(xs, id);
    }
  }

  lemma {:induction false} WithoutOnce(xs: seq<string>, id: string)
    requires NoDuplicates(xs) && id in xs
    ensures |Without(xs, id)| == |xs| - 1
  {
    var n := |xs| - 1;
    if xs[n] == id {
      WithoutAbsent(xs[..n], id);
    } else {
      WithoutOnce(xs[..n], id);
    }
  }

  /** Cutting the list before an id is buried does not matter. */
  lemma {:induction false} BuriedInLast(xs: seq<string>, id: string, k: nat)
    requires NoDuplicates(xs) && k > 0
    ensures Buried(LastOf(xs, k), id, k) == Buried(xs, id, k)
  {
    hide Without, LastOf;
    LastOfLong(xs, k);
    if |xs| > k {
      var cut := |xs| - k;
      var front, ys := xs[..cut], xs[cut..];
      assert xs == front + ys;
      WithoutAppend(front, ys, id);
      if id in ys {
        WithoutOnce(ys, id);
      } else {
        WithoutAbsent(ys, id);
      }
      LastOfAppended(Without(front, id), Without(ys, id) + [id], k);
      assert Without(front, id) + (Without(ys, id) + [id]) == Without(xs, id) + [id];
    }
  }

  lemma {:induction false} LastOfLong(xs: seq<string>, k: nat)
    ensures LastOf(xs, k) == if |xs| > k then xs[|xs| - k..] else xs
  {
  }

  lemma {:induction false} LastOfAppended(front: seq<string>, ids: seq<string>, k: nat)
    requires |ids| >= k
    ensures LastOf(front + ids, k) == LastOf(ids, k)
  {
  }

  lemma {:induction false} BuryIsLast(removed: seq<string>, limit: nat)
    requires limit > 0
    ensures Bury([], removed, limit) == LastOf(ByLastRemoval(removed), limit)
  {
    if removed != [] {
      var n := |removed| - 1;
      BuryIsLast(removed[..n], limit);
      ByLastRemovalIs(removed[..n]);
      BuriedInLast(ByLastRemoval(removed[..n]), removed[n], limit);
    }
  }

  // ----- Who is still remembered -----

  /** What comes behind `id`. */
  function Behind(ids: seq<string>, id: string): seq<string> {
    if ids == [] then []
    else
      var n := |ids| - 1;
      if ids[n] == id then [] else Behind(ids[..n], id) + [ids[n]]
  }

  lemma {:induction false} LastOfSplit(ids: seq<string>, k: nat)
    requires ids != []
    ensures LastOf(ids, k) == if k == 0 then [] else LastOf(ids[..|ids| - 1], k - 1) + [ids[|ids| - 1]]
  {
  }

  lemma {:induction false} BehindSplit(ids: seq<string>, id: string)
    requires ids != []
    ensures var n := |ids| - 1;
            |Behind(ids, id)| == if ids[n] == id then 0 else |Behind(ids[..n], id)| + 1
  {
  }

  lemma {:induction false} LastOfIff(ids: seq<string>, id: string, k: nat)
    requires NoDuplicates(ids) && id in ids
    ensures id in LastOf(ids, k) <==> |Behind(ids, id)| < k
  {
    hide LastOf, Behind;
    var n := |ids| - 1;
    assert ids == ids[..n] + [ids[n]];
    LastOfSplit(ids, k);
    BehindSplit(ids, id);
    if ids[n] != id && k > 0 {
      LastOfIff(ids[..n], id, k - 1);
    }
  }

  /** The ids removed after the last removal of `id`. */
  function RemovedLater(removed: seq<string>, id: string): set<string> {
    if removed == [] then {}
    else
      var n := |removed| - 1;
      if removed[n] == id then {} else RemovedLater(removed[..n], id) + {removed[n]}
  }

  lemma {:induction false} BehindWithout(ids: seq<string>, id: string, x: string)
    requires x != id
    ensures Behind(Without(ids, x), id) == Without(Behind(ids, id), x)
  {
    if ids != [] {
      var n := |ids| - 1;
      BehindWithout(ids[..n], id, x);
      if ids[n] != id {
        BehindAppend(Without(ids[..n], x), ids[n], id);
        WithoutAppend(Behind(ids[..n], id), [ids[n]], x);
        WithoutSingle(ids[n], x);
      } else {
        BehindAppend(Without(ids[..n], x), id, id);
      }
    }
  }

  lemma {:induction false} WithoutSingle(y: string, x: string)
    ensures Without([y], x) == if y == x then [] else [y]
  {
    assert [y][..0] == [];
  }

  lemma {:induction false} BehindAppend(ids: seq<string>, y: string, id: string)
    ensures Behind(ids + [y], id) == if y == id then [] else Behind(ids, id) + [y]
    ensures Behind(ids + [], id) == Behind(ids, id)
  {
    assert (ids + [y])[..|ids|] == ids;
    assert ids + [] == ids;
  }

  lemma {:induction false} BehindIsLater(removed: seq<string>, id: string)
    requires id in removed
    ensures NoDuplicates(Behind(ByLastRemoval(removed), id))
    ensures forall x :: x in Behind(ByLastRemoval(removed), id) <==> x in RemovedLater(removed, id)
  {
    hide ByLastRemoval, RemovedLater, Behind, Without;
    var n := |removed| - 1;
    var x := removed[n];
    var front := ByLastRemoval(removed[..n]);
    LastRemovalStep(removed, id);
    BehindAppend(Without(front, x), x, id);
    if x != id {
      assert removed == removed[..n] + [x];
      BehindIsLater(removed[..n], id);
      BehindWithout(front, id, x);
      WithoutIs(Behind(front, id), x);
      AppendDistinct(Without(Behind(front, id), x), x);
    }
  }

  lemma {:induction false} LastRemovalStep(removed: seq<string>, id: string)
    requires removed != []
    ensures var n := |removed| - 1;
            && ByLastRemoval(removed) == Without(ByLastRemoval(removed[..n]), removed[n]) + [removed[n]]
            && RemovedLater(removed, id) ==
               if removed[n] == id then {} else RemovedLater(removed[..n], id) + {removed[n]}
  {
  }

  lemma {:induction false} AppendDistinct(ids: seq<string>, x: string)
    requires NoDuplicates(ids) && x !in ids
    ensures NoDuplicates(ids + [x])
  {
    assert forall i | 0 <= i < |ids| :: ids[i] in ids;
  }

  lemma {:induction false} CountOfDistinct(ids: seq<string>, s: set<string>)
    requires NoDuplicates(ids) && forall x :: x in ids <==> x in s
    ensures |ids| == |s|
  {
    if ids == [] {
      assert s == {};
    } else {
      var n := |ids| - 1;
      assert ids == ids[..n] + [ids[n]];
      assert forall x :: x in ids[..n] <==> x in s - {ids[n]};
      CountOfDistinct(ids[..n], s - {ids[n]});
    }
  }

  /** An id is remembered if and only if it has been removed and fewer than `limit` others
      have been removed since. */
  lemma {:induction false} RememberedIff(removed: seq<string>, limit: nat, id: string)
    requires limit > 0
    ensures id in Bury([], removed, limit) <==> id in removed && |RemovedLater(removed, id)| < limit
  {
    BuryIsLast(removed, limit);
    ByLastRemovalIs(removed);
    var ids := ByLastRemoval(removed);
    if id in removed {
      LastOfIff(ids, id, limit);
      BehindIsLater(removed, id);
      CountOfDistinct(Behind(ids, id), RemovedLater(removed, id));
    }
  }

  // ----- Over runs -----

  /** The chains that a call removes, in order. */
  function RemovedBy<D>(l: Limits, s: Index<D>, step: Step<D>): seq<string> {
    match step
    case DoInvalidate(id) => if id in s.records then [id] else []
    case DoEvict(id) => if id in s.records && s.records[id].state.Idle? then [id] else []
    case DoApply(p, _) => EvictedBy(l, s, p.victims)
    case _ => []
  }

  function EvictedBy<D>(l: Limits, s: Index<D>, ids: seq<string>): seq<string>
    decreases |ids|
  {
    if ids == [] || Evict(l, s, ids[0]).1.Failure? then []
    else [ids[0]] + EvictedBy(l, Evict(l, s, ids[0]).0, ids[1..])
  }

  /** The chains removed since the start or the last reset. */
  function Removals<D(==)>(hash: seq<int> -> D, l: Limits, steps: seq<Step<D>>): seq<string> {
    if steps == [] then []
    else
      var n := |steps| - 1;
      if steps[n].DoReset? then []
      else Removals(hash, l, steps[..n]) + RemovedBy(l, Run(hash, l, Empty(), steps[..n]), steps[n])
  }

  lemma {:induction false} BuryOne(ids: seq<string>, id: string, limit: nat)
    ensures Bury(ids, [id], limit) == Buried(ids, id, limit)
    ensures Bury(ids, [], limit) == ids
  {
    assert [id][..0] == [];
    assert Bury(ids, [id][..0], limit) == ids;
  }

  lemma {:induction false} EvictAllBuries<D>(l: Limits, s: Index<D>, ids: seq<string>)
    ensures EvictAll(l, s, ids).0.tombstones == Bury(s.tombstones, EvictedBy(l, s, ids), l.tombstones)
    decreases |ids|
  {
    if ids != [] && Evict(l, s, ids[0]).1.Success? {
      var t := Evict(l, s, ids[0]).0;
      EvictAllBuries(l, t, ids[1..]);
      BuryOne(s.tombstones, ids[0], l.tombstones);
      BuryMore(s.tombstones, [ids[0]], EvictedBy(l, t, ids[1..]), l.tombstones);
    } else {
      BuryOne(s.tombstones, "", l.tombstones);
    }
  }

  lemma {:induction false} StepBuries<D>(hash: seq<int> -> D, l: Limits, s: Index<D>, step: Step<D>)
    requires !step.DoReset?
    ensures After(hash, l, s, step).tombstones == Bury(s.tombstones, RemovedBy(l, s, step), l.tombstones)
  {
    hide Buried, Bury;
    BuryOne(s.tombstones, "", l.tombstones);
    match step
    case DoApply(p, _) => EvictAllBuries(l, s, p.victims);
    case DoInvalidate(id) => BuryOne(s.tombstones, id, l.tombstones);
    case DoEvict(id) => BuryOne(s.tombstones, id, l.tombstones);
    case DoPlan(_, _) =>
    case DoFinish(_, _, _, _, _) =>
    case DoFinishDigest(_, _, _, _, _) =>
    case DoRemember(_, _, _, _) =>
  }

  lemma {:induction false} RunBuries<D>(hash: seq<int> -> D, l: Limits, steps: seq<Step<D>>)
    ensures Run(hash, l, Empty(), steps).tombstones == Bury([], Removals(hash, l, steps), l.tombstones)
  {
    hide After, Bury, RemovedBy;
    BuryOne([], "", l.tombstones);
    if steps != [] {
      var n := |steps| - 1;
      RunBuries(hash, l, steps[..n]);
      if steps[n].DoReset? {
        ResetEmpties(hash, l, Run(hash, l, Empty(), steps[..n]), steps[n]);
      } else {
        var s := Run(hash, l, Empty(), steps[..n]);
        StepBuries(hash, l, s, steps[n]);
        BuryMore([], Removals(hash, l, steps[..n]), RemovedBy(l, s, steps[n]), l.tombstones);
      }
    }
  }

  lemma {:induction false} ResetEmpties<D>(hash: seq<int> -> D, l: Limits, s: Index<D>, step: Step<D>)
    requires step.DoReset?
    ensures After(hash, l, s, step).tombstones == []
  {
  }

  /** After any run a chain is reported as gone if and only if it is not resident, it has been
      removed, and fewer other chains than the limit have been removed since; any other id
      that is not resident is unknown. */
  lemma {:induction false} GoneIff<D>(hash: seq<int> -> D, l: Limits, steps: seq<Step<D>>, id: string)
    requires l.tombstones > 0
    ensures var s := Run(hash, l, Empty(), steps);
            var removed := Removals(hash, l, steps);
            && (Lookup(s, id) == Failure(Gone) <==>
                  id !in s.records && id in removed && |RemovedLater(removed, id)| < l.tombstones)
            && (Lookup(s, id) == Failure(NotFound) <==>
                  id !in s.records && !(id in removed && |RemovedLater(removed, id)| < l.tombstones))
  {
    RunBuries(hash, l, steps);
    RememberedIff(Removals(hash, l, steps), l.tombstones, id);
  }
}
