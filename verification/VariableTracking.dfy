/** Interleaving and hiding the assignment chains of the variable-tracking task. */
module VariableTracking {
  import opened Sequences
  import opened Wrappers

  // ----- Sums of lengths -----

  function Sum(ns: seq<nat>): nat {
    if ns == [] then 0 else Sum(ns[..|ns| - 1]) + ns[|ns| - 1]
  }

  lemma {:induction false} SumUpdate(ns: seq<nat>, i: nat)
    requires i < |ns|
    ensures Sum(ns[i := ns[i] + 1]) == Sum(ns) + 1
  {
    var n := |ns| - 1;
    if i < n {
      SumUpdate(ns[..n], i);
      assert ns[i := ns[i] + 1][..n] == ns[..n][i := ns[i] + 1];
    } else {
      assert ns[i := ns[i] + 1][..n] == ns[..n];
    }
  }

  lemma {:induction false} SumMonotone(ns: seq<nat>, ms: seq<nat>)
    requires |ns| == |ms| && forall i | 0 <= i < |ns| :: ns[i] <= ms[i]
    ensures Sum(ns) <= Sum(ms)
  {
    if ns != [] {
      SumMonotone(ns[..|ns| - 1], ms[..|ms| - 1]);
    }
  }

  function Lengths<T>(chains: seq<seq<T>>): seq<nat> {
    seq(|chains|, i requires 0 <= i < |chains| => |chains[i]|)
  }

  // ----- Interleaving -----

  /** Where an element comes from: its chain and its index in the chain. */
  datatype Place = Place(chain: nat, elem: nat)

  /** The indices taken from one chain, in order of output. */
  function TakenFrom(places: seq<Place>, chain: nat): seq<nat> {
    if places == [] then []
    else
      var last := places[|places| - 1];
      TakenFrom(places[..|places| - 1], chain) + if last.chain == chain then [last.elem] else []
  }

  /** Every output sentence is the one at its place. */
  ghost predicate IsTextAt<T>(chains: seq<seq<T>>, places: seq<Place>, texts: seq<T>) {
    && |texts| == |places|
    && forall i | 0 <= i < |places| ::
         && places[i].chain < |chains|
         && places[i].elem < |chains[places[i].chain]|
         && texts[i] == chains[places[i].chain][places[i].elem]
  }

  /** Every element of every chain once, each chain in its own order. */
  ghost predicate Interleaves<T>(places: seq<Place>, chains: seq<seq<T>>) {
    && (forall p | p in places :: p.chain < |chains| && p.elem < |chains[p.chain]|)
    && (forall c | 0 <= c < |chains| :: TakenFrom(places, c) == UpTo(|chains[c]|))
    && |places| == Sum(Lengths(chains))
  }

  datatype Entry = Entry(priority: real, chain: nat, elem: nat)

  /** Tuple order. */
  predicate EntryLeq(a: Entry, b: Entry) {
    a.priority < b.priority
    || (a.priority == b.priority && (a.chain < b.chain || (a.chain == b.chain && a.elem <= b.elem)))
  }

  /** `heappop` */
  method PopLeast(heap: set<Entry>) returns (least: Entry, rest: set<Entry>)
    requires heap != {}
    ensures least in heap && rest == heap - {least}
    ensures forall x | x in heap :: EntryLeq(least, x)
    ensures forall x | x in heap :: least.priority <= x.priority
    ensures forall x | x in heap && x.priority == least.priority ::
              least.chain < x.chain || (least.chain == x.chain && least.elem <= x.elem)
  {
    least :| least in heap;
    var unseen := heap - {least};
    while unseen != {}
      invariant unseen <= heap && least in heap
      invariant forall x | x in heap && x !in unseen :: EntryLeq(least, x)
      decreases unseen
    {
      var x :| x in unseen;
      unseen := unseen - {x};
      if !EntryLeq(least, x) {
        least := x;
      }
    }
    rest := heap - {least};
  }

  ghost predicate InHeap(heap: set<Entry>, c: nat) {
    exists x :: x in heap && x.chain == c
  }

  /** `next[c]` elements of chain `c` are out; its next one waits in the heap. */
  ghost predicate Waiting<T>(chains: seq<seq<T>>, heap: set<Entry>, next: seq<nat>) {
    && |next| == |chains|
    && (forall x | x in heap :: x.chain < |chains| && x.elem == next[x.chain])
    && (forall x | x in heap :: x.elem < |chains[x.chain]| || chains[x.chain] == [])
    && (forall x, y | x in heap && y in heap && x.chain == y.chain :: x == y)
    && (forall c | 0 <= c < |chains| :: next[c] <= |chains[c]|)
    && (forall c | 0 <= c < |chains| && (next[c] < |chains[c]| || chains[c] == []) :: InHeap(heap, c))
  }

  ghost predicate Output<T>(chains: seq<seq<T>>, places: seq<Place>, next: seq<nat>) {
    && |next| == |chains|
    && (forall p | p in places :: p.chain < |chains| && p.elem < |chains[p.chain]|)
    && (forall c | 0 <= c < |chains| :: TakenFrom(places, c) == UpTo(next[c]))
    && |places| == Sum(next)
  }

  lemma {:induction false} OutputStep<T>(chains: seq<seq<T>>, places: seq<Place>, next: seq<nat>, c: nat)
    requires Output(chains, places, next) && c < |chains| && next[c] < |chains[c]|
    ensures Output(chains, places + [Place(c, next[c])], next[c := next[c] + 1])
  {
    var places' := places + [Place(c, next[c])];
    assert places'[..|places|] == places;
    SumUpdate(next, c);
    assert UpTo(next[c]) + [next[c]] == UpTo(next[c] + 1);
  }

  lemma {:induction false} WaitingStep<T>(chains: seq<seq<T>>, heap: set<Entry>, next: seq<nat>, x: Entry, priority: real, pushed: set<Entry>)
    requires Waiting(chains, heap, next) && x in heap && x.elem < |chains[x.chain]|
    requires pushed == heap - {x} + if x.elem + 1 < |chains[x.chain]| then {Entry(priority, x.chain, x.elem + 1)} else {}
    ensures Waiting(chains, pushed, next[x.chain := x.elem + 1])
  {
    var next' := next[x.chain := x.elem + 1];
    forall c | 0 <= c < |chains| && (next'[c] < |chains[c]| || chains[c] == [])
      ensures InHeap(pushed, c)
    {
      if c == x.chain {
        assert Entry(priority, x.chain, x.elem + 1) in pushed;
      } else {
        assert InHeap(heap, c);
        var y :| y in heap && y.chain == c;
        assert y in pushed;
      }
    }
  }

  method FillHeap<T>(chains: seq<seq<T>>, draws: nat -> real) returns (heap: set<Entry>, ghost next: seq<nat>)
    ensures Waiting(chains, heap, next) && Output(chains, [], next)
  {
    heap := {};
    next := seq(|chains|, i => 0);
    var c := 0;
    while c < |chains|
      invariant 0 <= c <= |chains|
      invariant forall x | x in heap :: x.chain < c && x.elem == 0
      invariant forall x, y | x in heap && y in heap && x.chain == y.chain :: x == y
      invariant forall d | 0 <= d < c :: InHeap(heap, d)
    {
      var x := Entry(draws(c), c, 0);
      ghost var before := heap;
      heap := heap + {x};
      assert x in heap;
      forall d | 0 <= d < c ensures InHeap(heap, d) {
        assert InHeap(before, d);
        var y :| y in before && y.chain == d;
        assert y in heap;
      }
      c := c + 1;
    }
    SumOfZeros(next);
  }

  /** Between two turns of the loop. */
  ghost predicate Shuffling<T>(chains: seq<seq<T>>, heap: set<Entry>, places: seq<Place>, texts: seq<T>, next: seq<nat>) {
    && Waiting(chains, heap, next)
    && Output(chains, places, next)
    && IsTextAt(chains, places, texts)
  }

  /** One turn of the loop: the next element of the popped entry goes out. */
  method EmitNext<T>(chains: seq<seq<T>>, heap: set<Entry>, x: Entry, draw: real, texts: seq<T>,
                     ghost places: seq<Place>, ghost next: seq<nat>)
    returns (heap': set<Entry>, texts': seq<T>, ghost places': seq<Place>, ghost next': seq<nat>)
    requires Shuffling(chains, heap, places, texts, next)
    requires x in heap && x.chain < |chains| && x.elem < |chains[x.chain]|
    ensures Shuffling(chains, heap', places', texts', next')
    ensures Sum(next) < Sum(next') <= Sum(Lengths(chains))
  {
    texts' := texts + [chains[x.chain][x.elem]];
    places' := places + [Place(x.chain, x.elem)];
    heap' := heap - {x} + if x.elem + 1 < |chains[x.chain]| then {Entry(draw, x.chain, x.elem + 1)} else {};
    next' := ShufflingStep(chains, heap, places, texts, next, x, draw);
  }

  lemma {:induction false} ShufflingStep<T>(chains: seq<seq<T>>, heap: set<Entry>, places: seq<Place>, texts: seq<T>, next: seq<nat>,
                         x: Entry, draw: real)
    returns (next': seq<nat>)
    requires Shuffling(chains, heap, places, texts, next)
    requires x in heap && x.chain < |chains| && x.elem < |chains[x.chain]|
    ensures Shuffling(chains,
                      heap - {x} + if x.elem + 1 < |chains[x.chain]| then {Entry(draw, x.chain, x.elem + 1)} else {},
                      places + [Place(x.chain, x.elem)], texts + [chains[x.chain][x.elem]], next')
    ensures Sum(next) < Sum(next') <= Sum(Lengths(chains))
  {
    hide *;
    var heap' := heap - {x} + if x.elem + 1 < |chains[x.chain]| then {Entry(draw, x.chain, x.elem + 1)} else {};
    Unfold(chains, heap, places, texts, next);
    WaitingFacts(chains, heap, next, x);
    next' := next[x.chain := x.elem + 1];
    WaitingStep(chains, heap, next, x, draw, heap');
    OutputStep(chains, places, next, x.chain);
    OutputTexts(chains, places, texts, Place(x.chain, x.elem));
    SumUpdate(next, x.chain);
    WaitingSums(chains, heap', next');
    Fold(chains, heap', places + [Place(x.chain, x.elem)], texts + [chains[x.chain][x.elem]], next');
  }

  lemma {:induction false} Unfold<T>(chains: seq<seq<T>>, heap: set<Entry>, places: seq<Place>, texts: seq<T>, next: seq<nat>)
    requires Shuffling(chains, heap, places, texts, next)
    ensures Waiting(chains, heap, next) && Output(chains, places, next) && IsTextAt(chains, places, texts)
  {
  }

  lemma {:induction false} Fold<T>(chains: seq<seq<T>>, heap: set<Entry>, places: seq<Place>, texts: seq<T>, next: seq<nat>)
    requires Waiting(chains, heap, next) && Output(chains, places, next) && IsTextAt(chains, places, texts)
    ensures Shuffling(chains, heap, places, texts, next)
  {
  }

  lemma {:induction false} WaitingFacts<T>(chains: seq<seq<T>>, heap: set<Entry>, next: seq<nat>, x: Entry)
    requires Waiting(chains, heap, next) && x in heap && x.chain < |chains|
    ensures |next| == |chains| && x.elem == next[x.chain]
  {
  }

  lemma {:induction false} WaitingSums<T>(chains: seq<seq<T>>, heap: set<Entry>, next: seq<nat>)
    requires Waiting(chains, heap, next)
    ensures Sum(next) <= Sum(Lengths(chains))
  {
    SumMonotone(next, Lengths(chains));
  }

  lemma {:induction false} OutputTexts<T>(chains: seq<seq<T>>, places: seq<Place>, texts: seq<T>, p: Place)
    requires IsTextAt(chains, places, texts) && p.chain < |chains| && p.elem < |chains[p.chain]|
    ensures IsTextAt(chains, places + [p], texts + [chains[p.chain][p.elem]])
  {
  }

  lemma {:induction false} Popped<T>(chains: seq<seq<T>>, heap: set<Entry>, places: seq<Place>, texts: seq<T>, next: seq<nat>, x: Entry)
    requires Shuffling(chains, heap, places, texts, next) && x in heap
    ensures x.chain < |chains| && (x.elem >= |chains[x.chain]| ==> chains[x.chain] == [])
  {
  }

  lemma {:induction false} AllOut<T>(chains: seq<seq<T>>, places: seq<Place>, texts: seq<T>, next: seq<nat>)
    requires Shuffling(chains, {}, places, texts, next)
    ensures Interleaves(places, chains) && [] !in chains && IsTextAt(chains, places, texts)
  {
    forall c | 0 <= c < |chains| ensures next[c] == |chains[c]| && chains[c] != [] {
      assert !InHeap({}, c);
    }
    assert next == Lengths(chains);
  }

  /** `shuffle_sublists`: raises exactly when a chain is empty; otherwise the output
      interleaves the chains, whatever the priorities drawn. */
  method ShuffleSublists<T>(chains: seq<seq<T>>, draws: nat -> real)
    returns (shuffled: Option<seq<T>>, ghost places: seq<Place>)
    ensures shuffled.None? <==> [] in chains
    ensures shuffled.Some? ==> Interleaves(places, chains) && IsTextAt(chains, places, shuffled.value)
  {
    hide *;
    ghost var next;
    var heap, texts;
    heap, texts, places, next := StartShuffle(chains, draws);
    var drawn: nat := |chains|;
    while heap != {}
      invariant Shuffling(chains, heap, places, texts, next)
      decreases Sum(Lengths(chains)) - Sum(next)
    {
      var x, _ := PopLeast(heap);
      Popped(chains, heap, places, texts, next, x);
      if x.elem >= |chains[x.chain]| {
        return None, places;
      }
      heap, texts, places, next := EmitNext(chains, heap, x, draws(drawn), texts, places, next);
      drawn := drawn + 1;
    }
    AllOut(chains, places, texts, next);
    return Some(texts), places;
  }

  method StartShuffle<T>(chains: seq<seq<T>>, draws: nat -> real)
    returns (heap: set<Entry>, texts: seq<T>, ghost places: seq<Place>, ghost next: seq<nat>)
    ensures Shuffling(chains, heap, places, texts, next)
  {
    heap, next := FillHeap(chains, draws);
    texts, places := [], [];
  }

  lemma {:induction false} SumOfZeros(ns: seq<nat>)
    requires forall i | 0 <= i < |ns| :: ns[i] == 0
    ensures Sum(ns) == 0
  {
    if ns != [] {
      SumOfZeros(ns[..|ns| - 1]);
    }
  }

  // ----- Hiding chains in the haystack -----

  /** The sentences with a given owner, in order. */
  function OwnedBy<T>(sentences: seq<T>, owners: seq<nat>, owner: nat): seq<T>
    requires |sentences| == |owners|
  {
    if sentences == [] then []
    else
      var n := |sentences| - 1;
      OwnedBy(sentences[..n], owners[..n], owner) + if owners[n] == owner then [sentences[n]] else []
  }

  function InsertAt<T>(xs: seq<T>, i: nat, x: T): seq<T>
    requires i <= |xs|
  {
    xs[..i] + [x] + xs[i..]
  }

  lemma {:induction false} OwnedByAppend<T>(xs: seq<T>, os: seq<nat>, ys: seq<T>, ps: seq<nat>, owner: nat)
    requires |xs| == |os| && |ys| == |ps|
    ensures OwnedBy(xs + ys, os + ps, owner) == OwnedBy(xs, os, owner) + OwnedBy(ys, ps, owner)
  {
    if ys == [] {
      assert xs + ys == xs && os + ps == os;
    } else {
      var n := |ys| - 1;
      OwnedByAppend(xs, os, ys[..n], ps[..n], owner);
      assert (xs + ys)[..|xs| + n] == xs + ys[..n];
      assert (os + ps)[..|os| + n] == os + ps[..n];
    }
  }

  lemma {:induction false} OwnedByNone<T>(xs: seq<T>, os: seq<nat>, owner: nat)
    requires |xs| == |os| && owner !in os
    ensures OwnedBy(xs, os, owner) == []
  {
    if xs != [] {
      OwnedByNone(xs[..|xs| - 1], os[..|xs| - 1], owner);
    }
  }

  /** Inserting a sentence behind all others of its owner appends it to that owner's
      sentences and disturbs no one else's. */
  lemma {:induction false} InsertOwned<T>(xs: seq<T>, os: seq<nat>, i: nat, x: T, own: nat, owner: nat)
    requires |xs| == |os| && i <= |xs| && own !in os[i..]
    ensures OwnedBy(InsertAt(xs, i, x), InsertAt(os, i, own), owner) ==
            OwnedBy(xs, os, owner) + if owner == own then [x] else []
  {
    hide OwnedBy;
    OwnedByAppend(xs[..i], os[..i], xs[i..], os[i..], owner);
    assert xs == xs[..i] + xs[i..] && os == os[..i] + os[i..];
    OwnedByAppend(xs[..i], os[..i], [x], [own], owner);
    OwnedByAppend(xs[..i] + [x], os[..i] + [own], xs[i..], os[i..], owner);
    OwnedBySingle(x, own, owner);
    OwnedByNone(xs[i..], os[i..], own);
  }

  lemma {:induction false} OwnedBySingle<T>(x: T, own: nat, owner: nat)
    ensures OwnedBy([x], [own], owner) == if owner == own then [x] else []
  {
    assert [x][..0] == [] && [own][..0] == [];
  }

  /** `sorted(random.sample(range(length), k))` */
  ghost predicate SampledPositions(positions: seq<nat>, k: nat, length: nat) {
    && |positions| == k
    && (forall i | 0 <= i < k :: positions[i] < length)
    && (forall i, j | 0 <= i < j < k :: positions[i] < positions[j])
  }

  /** The insertion loop for one chain.  Each sentence lands at its drawn position
      shifted by its index; `owners` says who every sentence belongs to. */
  method HideChain<T>(sentences: seq<T>, chain: seq<T>, positions: seq<nat>, ghost owners: seq<nat>, ghost own: nat)
    returns (hidden: seq<T>, ghost owners': seq<nat>)
    requires SampledPositions(positions, |chain|, |sentences|)
    requires |owners| == |sentences| && own !in owners
    ensures |hidden| == |sentences| + |chain| == |owners'|
    ensures forall h | 0 <= h < |chain| :: hidden[positions[h] + h] == chain[h] && owners'[positions[h] + h] == own
    ensures OwnedBy(hidden, owners', own) == chain
    ensures forall o | o != own :: OwnedBy(hidden, owners', o) == OwnedBy(sentences, owners, o)
    ensures forall o | o in owners' :: o in owners || o == own
  {
    hide OwnedBy, InsertAt;
    hidden, owners' := sentences, owners;
    OwnedByNone(sentences, owners, own);
    var h := 0;
    while h < |chain|
      invariant 0 <= h <= |chain|
      invariant HiddenUpTo(sentences, chain, positions, owners, own, h, hidden, owners')
    {
      hidden, owners' := HideSentence(sentences, chain, positions, owners, own, h, hidden, owners');
      h := h + 1;
    }
    assert chain[..h] == chain;
  }

  /** The first `h` sentences of the chain are in place. */
  ghost predicate HiddenUpTo<T>(sentences: seq<T>, chain: seq<T>, positions: seq<nat>, owners: seq<nat>, own: nat,
                                h: nat, hidden: seq<T>, owners': seq<nat>)
    requires SampledPositions(positions, |chain|, |sentences|) && |owners| == |sentences| && h <= |chain|
  {
    && |hidden| == |sentences| + h == |owners'|
    && (forall g | 0 <= g < h :: hidden[positions[g] + g] == chain[g] && owners'[positions[g] + g] == own)
    && OwnedBy(hidden, owners', own) == chain[..h]
    && (forall o | o != own :: OwnedBy(hidden, owners', o) == OwnedBy(sentences, owners, o))
    && (forall o | o in owners' :: o in owners || o == own)
    && (forall i | 0 <= i < |owners'| && owners'[i] == own :: h > 0 && i <= positions[h - 1] + h - 1)
  }

  /** `sentences.insert(i, x)` for a sentence behind all those of its owner. */
  method HideSentence<T>(sentences: seq<T>, chain: seq<T>, positions: seq<nat>, ghost owners: seq<nat>,
                         ghost own: nat, h: nat, hidden: seq<T>, ghost owners': seq<nat>)
    returns (hidden': seq<T>, ghost owners'': seq<nat>)
    requires SampledPositions(positions, |chain|, |sentences|) && |owners| == |sentences|
    requires h < |chain| && HiddenUpTo(sentences, chain, positions, owners, own, h, hidden, owners')
    ensures HiddenUpTo(sentences, chain, positions, owners, own, h + 1, hidden', owners'')
  {
    hide OwnedBy;
    var i := positions[h] + h;
    assert h > 0 ==> positions[h - 1] < positions[h];
    hidden' := hidden[..i] + [chain[h]] + hidden[i..];
    owners'' := InsertAt(owners', i, own);
    assert hidden' == InsertAt(hidden, i, chain[h]);
    InsertOwned(hidden, owners', i, chain[h], own, own);
    assert chain[..h + 1] == chain[..h] + [chain[h]];
    forall o | o != own ensures OwnedBy(hidden', owners'', o) == OwnedBy(sentences, owners, o) {
      InsertOwned(hidden, owners', i, chain[h], own, o);
    }
    InsertPlaces(hidden, owners', i, chain[h], own, positions, h);
  }

  /** Earlier insertions at sorted positions stay where they are. */
  lemma {:induction false} InsertPlaces<T>(xs: seq<T>, os: seq<nat>, i: nat, x: T, own: nat, positions: seq<nat>, h: nat)
    requires |xs| == |os| && i <= |xs| && h < |positions| && i == positions[h] + h
    requires forall j, k | 0 <= j < k < |positions| :: positions[j] < positions[k]
    ensures InsertAt(xs, i, x)[i] == x && InsertAt(os, i, own)[i] == own
    ensures forall g | 0 <= g < h ::
              && InsertAt(xs, i, x)[positions[g] + g] == xs[positions[g] + g]
              && InsertAt(os, i, own)[positions[g] + g] == os[positions[g] + g]
  {
  }

  /** `random.sample` succeeds for chain `c`: the text so far has enough sentences. */
  predicate ChainFits<T>(noises: nat, chains: seq<seq<T>>, c: nat)
    requires c < |chains|
  {
    |chains[c]| <= noises + Sum(Lengths(chains[..c]))
  }

  /** The state of the loop over the chains after the first `c` of them. */
  ghost predicate Hidden<T>(noise: T, noises: nat, chains: seq<seq<T>>, c: nat, sentences: seq<T>, owners: seq<nat>) {
    && c <= |chains|
    && |sentences| == |owners| == noises + Sum(Lengths(chains[..c]))
    && OwnedBy(sentences, owners, 0) == seq(noises, i => noise)
    && (forall d | 0 <= d < c :: OwnedBy(sentences, owners, d + 1) == chains[d])
    && (forall o | o in owners :: o <= c)
  }

  /** The loop over the chains in `generate_input_output`.  Owner 0 is the haystack and
      owner `c + 1` is chain `c`: the text is a shuffle of the haystack and all the
      chains in which each of them keeps its order.  The call raises exactly when a
      chain is longer than the text it is to be hidden in. */
  method HideChains<T>(noise: T, noises: nat, chains: seq<seq<T>>, positions: seq<seq<nat>>)
    returns (text: Option<seq<T>>, ghost owners: seq<nat>)
    requires |positions| == |chains|
    requires forall c | 0 <= c < |chains| && ChainFits(noises, chains, c) ::
               SampledPositions(positions[c], |chains[c]|, noises + Sum(Lengths(chains[..c])))
    ensures text.Some? <==> forall c | 0 <= c < |chains| :: ChainFits(noises, chains, c)
    ensures text.Some? ==> Hidden(noise, noises, chains, |chains|, text.value, owners)
  {
    hide Hidden;
    var sentences := seq(noises, i => noise);
    owners := seq(noises, i => 0);
    HiddenNone(noise, noises, chains, sentences, owners);
    var c := 0;
    while c < |chains|
      invariant Hidden(noise, noises, chains, c, sentences, owners)
      invariant 0 <= c <= |chains| && forall d | 0 <= d < c :: ChainFits(noises, chains, d)
    {
      HiddenLength(noise, noises, chains, c, sentences, owners);
      if |chains[c]| > |sentences| {
        return None, owners;
      }
      sentences, owners := HideNext(noise, noises, chains, c, sentences, positions[c], owners);
      c := c + 1;
    }
    return Some(sentences), owners;
  }

  lemma {:induction false} HiddenNone<T>(noise: T, noises: nat, chains: seq<seq<T>>, sentences: seq<T>, owners: seq<nat>)
    requires sentences == seq(noises, i => noise) && owners == seq(noises, i => 0)
    ensures Hidden(noise, noises, chains, 0, sentences, owners)
  {
    OwnedByAll(sentences, owners);
    assert Lengths(chains[..0]) == [];
  }

  lemma {:induction false} HiddenLength<T>(noise: T, noises: nat, chains: seq<seq<T>>, c: nat, sentences: seq<T>, owners: seq<nat>)
    requires c < |chains| && Hidden(noise, noises, chains, c, sentences, owners)
    ensures |sentences| == |owners| == noises + Sum(Lengths(chains[..c]))
    ensures ChainFits(noises, chains, c) <==> |chains[c]| <= |sentences|
  {
  }

  method HideNext<T>(noise: T, noises: nat, chains: seq<seq<T>>, c: nat, sentences: seq<T>,
                     positions: seq<nat>, ghost owners: seq<nat>)
    returns (sentences': seq<T>, ghost owners': seq<nat>)
    requires Hidden(noise, noises, chains, c, sentences, owners) && c < |chains|
    requires SampledPositions(positions, |chains[c]|, |sentences|)
    ensures Hidden(noise, noises, chains, c + 1, sentences', owners')
  {
    sentences', owners' := HideChain(sentences, chains[c], positions, owners, c + 1);
    assert Lengths(chains[..c + 1]) == Lengths(chains[..c]) + [|chains[c]|];
    SumAppend(Lengths(chains[..c]), |chains[c]|);
  }

  lemma {:induction false} SumAppend(ns: seq<nat>, n: nat)
    ensures Sum(ns + [n]) == Sum(ns) + n
  {
    assert (ns + [n])[..|ns|] == ns;
  }

  lemma {:induction false} OwnedByAll<T>(xs: seq<T>, os: seq<nat>)
    requires |xs| == |os| && forall i | 0 <= i < |os| :: os[i] == 0
    ensures OwnedBy(xs, os, 0) == xs
  {
    if xs != [] {
      OwnedByAll(xs[..|xs| - 1], os[..|xs| - 1]);
    }
  }
}
