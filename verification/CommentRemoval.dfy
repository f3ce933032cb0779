/** Removing captured byte ranges from a source text by splices from the back. */
module CommentRemoval {
  import opened Sequences
  import opened Sorting

  datatype Range = Range(start: nat, end: nat)

  predicate Covers(r: Range, i: int) {
    r.start <= i < r.end
  }

  predicate Covered(captures: seq<Range>, i: int) {
    exists r | r in captures :: Covers(r, i)
  }

  /** What a parser hands out lies within the text. */
  predicate InText(captures: seq<Range>, length: nat) {
    forall r | r in captures :: r.start <= r.end <= length
  }

  /** The bytes from position `i` on that lie in no captured range, in order. */
  function KeptFrom<T>(source: seq<T>, captures: seq<Range>, i: nat): seq<T>
    requires i <= |source|
    decreases |source| - i
  {
    if i == |source| then []
    else (if Covered(captures, i) then [] else [source[i]]) + KeptFrom(source, captures, i + 1)
  }

  /** `b[: start] + b[end :]` with Python's clipping of slices. */
  function Splice<T>(b: seq<T>, r: Range): seq<T> {
    (if r.start <= |b| then b[..r.start] else b) + (if r.end <= |b| then b[r.end..] else [])
  }

  /** What is left after the first `k` splices. */
  function Spliced<T>(b: seq<T>, sorted: seq<Range>, k: nat): seq<T>
    requires k <= |sorted|
  {
    if k == 0 then b else Splice(Spliced(b, sorted, k - 1), sorted[k - 1])
  }

  function LaterFirst(): (Range, Range) -> bool {
    (a: Range, b: Range) => a.start >= b.start
  }

  /** The whole loop. */
  function SplicedAll<T>(source: seq<T>, captures: seq<Range>): seq<T> {
    var sorted := StableSort(captures, LaterFirst());
    Spliced(source, sorted, |sorted|)
  }

  // ----- When captures may overlap -----

  ghost predicate TailCovered(captures: seq<Range>, p: int, length: nat) {
    forall q | p <= q < length :: Covered(captures, q)
  }

  /** Two captures share a byte only where everything up to the end of the text is
      captured anyway.  Captures without a common byte satisfy this. */
  ghost predicate SharedOnlyAtEnd(captures: seq<Range>, length: nat) {
    forall i, j, p | 0 <= i < j < |captures| && Covers(captures[i], p) && Covers(captures[j], p) ::
      TailCovered(captures, p, length)
  }

  lemma {:induction false} SharedPermuted(xs: seq<Range>, ys: seq<Range>, length: nat)
    requires multiset(xs) == multiset(ys) && SharedOnlyAtEnd(xs, length)
    ensures SharedOnlyAtEnd(ys, length)
  {
    SameElements(xs, ys);
    forall i, j, p | 0 <= i < j < |ys| && Covers(ys[i], p) && Covers(ys[j], p)
      ensures TailCovered(ys, p, length)
    {
      if ys[i] == ys[j] {
        TwiceIn(ys, i, j);
        var a, b := TwoPlaces(xs, ys[i]);
        assert TailCovered(xs, p, length);
      } else {
        var a :| 0 <= a < |xs| && xs[a] == ys[i];
        var b :| 0 <= b < |xs| && xs[b] == ys[j];
        assert a < b || b < a;
        assert TailCovered(xs, p, length);
      }
      assert forall q :: Covered(xs, q) <==> Covered(ys, q);
    }
  }

  ghost predicate InSpliceOrder(sorted: seq<Range>, length: nat) {
    && InText(sorted, length)
    && forall i, j | 0 <= i < j < |sorted| :: sorted[i].start >= sorted[j].start
  }

  lemma {:induction false} SortedIsInOrder(captures: seq<Range>, length: nat)
    requires InText(captures, length)
    ensures InSpliceOrder(StableSort(captures, LaterFirst()), length)
    ensures forall q :: Covered(captures, q) <==> Covered(StableSort(captures, LaterFirst()), q)
  {
    var sorted := StableSort(captures, LaterFirst());
    SortSorted(captures, LaterFirst());
    SameElements(captures, sorted);
    forall i, j | 0 <= i < j < |sorted| ensures sorted[i].start >= sorted[j].start {
      assert LaterFirst()(sorted[i], sorted[j]);
    }
  }

  // ----- Positions instead of bytes -----

  ghost predicate Increasing(b: seq<int>, length: nat) {
    && (forall i | 0 <= i < |b| :: 0 <= b[i] < length)
    && (forall i, j | 0 <= i < j < |b| :: b[i] < b[j])
  }

  function Pick<T>(source: seq<T>, b: seq<int>): seq<T>
    requires forall i | 0 <= i < |b| :: 0 <= b[i] < |source|
  {
    seq(|b|, i requires 0 <= i < |b| => source[b[i]])
  }

  /** Nothing in front of `s` is missing. */
  ghost predicate Intact(b: seq<int>, s: nat) {
    s <= |b| && forall i | 0 <= i < s :: b[i] == i
  }

  lemma {:induction false} NotBelowIndex(b: seq<int>, length: nat, i: nat)
    requires Increasing(b, length) && i < |b|
    ensures b[i] >= i
  {
    if i > 0 {
      NotBelowIndex(b, length, i - 1);
    }
  }

  /** An element that stands at its own index has all positions before it in place. */
  lemma {:induction false} FullUpTo(b: seq<int>, length: nat, i: nat)
    requires Increasing(b, length) && i < |b| && b[i] == i
    ensures Intact(b, i + 1)
  {
    if i > 0 {
      NotBelowIndex(b, length, i - 1);
      FullUpTo(b, length, i - 1);
    }
  }

  lemma {:induction false} MissingRunsAhead(b: seq<int>, length: nat, q: int, i: nat)
    requires Increasing(b, length) && 0 <= q <= i < |b| && q !in b
    ensures b[i] > i
  {
    NotBelowIndex(b, length, i);
    AllBefore(b, length, i);
  }

  lemma {:induction false} AllBefore(b: seq<int>, length: nat, i: nat)
    requires Increasing(b, length) && i < |b|
    ensures b[i] == i ==> forall q | 0 <= q <= i :: q in b
  {
    if b[i] == i {
      FullUpTo(b, length, i);
      forall q | 0 <= q <= i ensures q in b {
        assert b[q] == q;
      }
    }
  }

  /** The first place at which an increasing sequence runs ahead of its index skips a
      position. */
  lemma {:induction false} Gap(b: seq<int>, length: nat, s: nat, i: nat) returns (q: nat)
    requires Increasing(b, length) && Intact(b, s) && s <= i < |b| && b[i] > i
    ensures s <= q <= i && q !in b
    decreases i
  {
    if i > s && b[i - 1] > i - 1 {
      q := Gap(b, length, s, i - 1);
    } else {
      q := i;
      if i > 0 {
        NotBelowIndex(b, length, i - 1);
        assert b[i - 1] == i - 1;
      }
      forall j | 0 <= j < |b| ensures b[j] != i {
        assert j < i - 1 ==> b[j] < b[i - 1];
        assert j > i ==> b[j] > b[i];
      }
    }
  }

  /** What the splices leave when two properties hold of it: it is increasing, and the
      part in front of the next range is untouched. */
  ghost predicate Remaining(b: seq<int>, length: nat, sorted: seq<Range>, k: nat) {
    && k <= |sorted| && Increasing(b, length)
    && (forall j | k <= j < |sorted| :: Intact(b, sorted[j].start))
    && (forall p, j | p in b && 0 <= j < k :: !Covers(sorted[j], p))
  }

  lemma {:induction false} SpliceAt(b: seq<int>, r: Range)
    requires r.start <= r.end && r.start <= |b|
    ensures Splice(b, r) == b[..r.start] + b[if r.end <= |b| then r.end else |b|..]
  {
  }

  /** What a splice removes and what it leaves, by index. */
  lemma {:induction false} SplicedElements(b: seq<int>, r: Range, p: int)
    requires r.start <= r.end && r.start <= |b|
    ensures p in Splice(b, r) <==> exists i :: 0 <= i < |b| && b[i] == p && !Covers(r, i)
  {
    SpliceAt(b, r);
    var b' := Splice(b, r);
    var cut := if r.end <= |b| then r.end else |b|;
    if p in b' {
      var i :| 0 <= i < |b'| && b'[i] == p;
      var k := if i < r.start then i else i - r.start + cut;
      assert b[k] == p && !Covers(r, k);
    }
    if i :| 0 <= i < |b| && b[i] == p && !Covers(r, i) {
      var k := if i < r.start then i else i - cut + r.start;
      assert b'[k] == p;
    }
  }

  lemma {:induction false} SplicedIncreasing(b: seq<int>, length: nat, r: Range)
    requires Increasing(b, length) && r.start <= r.end && r.start <= |b|
    ensures Increasing(Splice(b, r), length)
    ensures forall s: nat | s <= r.start && Intact(b, s) :: Intact(Splice(b, r), s)
  {
    SpliceAt(b, r);
  }

  /** A splice never leaves a byte of its own range behind. */
  lemma {:induction false} SpliceRemovesRange(b: seq<int>, length: nat, r: Range, p: int)
    requires Increasing(b, length) && Intact(b, r.start) && r.start <= r.end && p in Splice(b, r)
    ensures p in b && !Covers(r, p)
  {
    SplicedElements(b, r, p);
    var i :| 0 <= i < |b| && b[i] == p && !Covers(r, i);
    NotBelowIndex(b, length, i);
    assert i < r.start ==> p == i;
  }

  lemma {:induction false} RemainingStep(b: seq<int>, length: nat, sorted: seq<Range>, k: nat)
    requires InSpliceOrder(sorted, length) && Remaining(b, length, sorted, k) && k < |sorted|
    ensures Remaining(Splice(b, sorted[k]), length, sorted, k + 1)
  {
    var r := sorted[k];
    SplicedIncreasing(b, length, r);
    forall p, j | p in Splice(b, r) && 0 <= j < k + 1 ensures !Covers(sorted[j], p) {
      SpliceRemovesRange(b, length, r, p);
    }
  }

  lemma {:induction false} RemainingAfter(length: nat, sorted: seq<Range>, k: nat)
    requires InSpliceOrder(sorted, length) && k <= |sorted|
    ensures Remaining(Spliced(UpTo(length), sorted, k), length, sorted, k)
  {
    hide *;
    if k > 0 {
      RemainingAfter(length, sorted, k - 1);
      RemainingStep(Spliced(UpTo(length), sorted, k - 1), length, sorted, k - 1);
      SplicedNext(UpTo(length), sorted, k - 1);
    } else {
      RemainingAtFirst(length, sorted);
    }
  }

  lemma {:induction false} RemainingAtFirst(length: nat, sorted: seq<Range>)
    requires InSpliceOrder(sorted, length)
    ensures Remaining(Spliced(UpTo(length), sorted, 0), length, sorted, 0)
  {
    assert forall j | 0 <= j < |sorted| :: sorted[j] in sorted;
  }

  lemma {:induction false} StaysRemoved(length: nat, sorted: seq<Range>, k: nat, l: nat, p: int)
    requires InSpliceOrder(sorted, length) && k <= l <= |sorted|
    requires p in Spliced(UpTo(length), sorted, l)
    ensures p in Spliced(UpTo(length), sorted, k)
    decreases l
  {
    hide *;
    if k < l {
      RemainingAfter(length, sorted, l - 1);
      SplicedNext(UpTo(length), sorted, l - 1);
      RemovedByNext(Spliced(UpTo(length), sorted, l - 1), length, sorted, l - 1, p);
      StaysRemoved(length, sorted, k, l - 1, p);
    }
  }

  lemma {:induction false} RemovedByNext(b: seq<int>, length: nat, sorted: seq<Range>, k: nat, p: int)
    requires InSpliceOrder(sorted, length) && Remaining(b, length, sorted, k) && k < |sorted|
    requires p in Splice(b, sorted[k])
    ensures p in b
  {
    hide Splice, Covers;
    assert sorted[k] in sorted;
    SpliceRemovesRange(b, length, sorted[k], p);
  }

  // ----- Captures that share bytes at the end only lose nothing else -----

  ghost predicate CoveredBefore(sorted: seq<Range>, k: nat, q: int)
    requires k <= |sorted|
  {
    exists j :: 0 <= j < k && Covers(sorted[j], q)
  }

  /** A missing position has been captured, or all that follows it is captured. */
  ghost predicate OnlyTails(b: seq<int>, length: nat, sorted: seq<Range>, k: nat)
    requires k <= |sorted|
  {
    forall q | 0 <= q < length && q !in b :: CoveredBefore(sorted, k, q) || TailCovered(sorted, q, length)
  }

  lemma {:induction false} OnlyTailsStep(b: seq<int>, length: nat, sorted: seq<Range>, k: nat)
    requires InSpliceOrder(sorted, length) && SharedOnlyAtEnd(sorted, length)
    requires Remaining(b, length, sorted, k) && k < |sorted| && OnlyTails(b, length, sorted, k)
    ensures OnlyTails(Splice(b, sorted[k]), length, sorted, k + 1)
  {
    var r := sorted[k];
    forall p | 0 <= p < length && p !in Splice(b, r)
      ensures CoveredBefore(sorted, k + 1, p) || TailCovered(sorted, p, length)
    {
      if p in b {
        var i :| 0 <= i < |b| && b[i] == p;
        SplicedElements(b, r, p);
        assert Covers(r, i);
        if p >= r.end {
          TailFromGap(b, length, sorted, k, i);
        } else {
          NotBelowIndex(b, length, i);
          assert Covers(sorted[k], p);
        }
      } else {
        assert CoveredBefore(sorted, k, p) ==> CoveredBefore(sorted, k + 1, p);
      }
    }
  }

  lemma {:induction false} TailFromGap(b: seq<int>, length: nat, sorted: seq<Range>, k: nat, i: nat)
    requires SharedOnlyAtEnd(sorted, length)
    requires Remaining(b, length, sorted, k) && k < |sorted| && OnlyTails(b, length, sorted, k)
    requires i < |b| && Covers(sorted[k], i) && b[i] >= sorted[k].end
    ensures TailCovered(sorted, b[i], length)
  {
    var q := Gap(b, length, sorted[k].start, i);
    assert Covers(sorted[k], q);
    if CoveredBefore(sorted, k, q) {
      var j :| 0 <= j < k && Covers(sorted[j], q);
      assert TailCovered(sorted, q, length);
    }
  }

  lemma {:induction false} OnlyTailsAfter(length: nat, sorted: seq<Range>, k: nat)
    requires InSpliceOrder(sorted, length) && SharedOnlyAtEnd(sorted, length) && k <= |sorted|
    ensures OnlyTails(Spliced(UpTo(length), sorted, k), length, sorted, k)
  {
    hide *;
    if k > 0 {
      OnlyTailsAfter(length, sorted, k - 1);
      RemainingAfter(length, sorted, k - 1);
      OnlyTailsStep(Spliced(UpTo(length), sorted, k - 1), length, sorted, k - 1);
      SplicedNext(UpTo(length), sorted, k - 1);
    } else {
      NothingMissing(length, sorted);
    }
  }

  lemma {:induction false} NothingMissing(length: nat, sorted: seq<Range>)
    ensures OnlyTails(Spliced(UpTo(length), sorted, 0), length, sorted, 0)
  {
    forall q | 0 <= q < length ensures q in UpTo(length) {
      assert UpTo(length)[q] == q;
    }
  }

  // ----- Captures that share bytes elsewhere lose too much -----

  /** Once a byte of a later range is missing, its splice reaches behind the range, and if
      what it takes there lies in a still later range, that one reaches further: a byte
      that no range covers is lost before one that no splice takes. */
  lemma {:induction false} Overreach(length: nat, sorted: seq<Range>, k: nat, q: int, u: int) returns (lost: int)
    requires InSpliceOrder(sorted, length) && k <= |sorted|
    requires q !in Spliced(UpTo(length), sorted, k)
    requires exists y :: k <= y < |sorted| && Covers(sorted[y], q)
    requires 0 <= q < u && !Covered(sorted, u) && u in Spliced(UpTo(length), sorted, |sorted|)
    ensures 0 <= lost < length && !Covered(sorted, lost) && lost !in Spliced(UpTo(length), sorted, |sorted|)
    decreases |sorted| - k
  {
    hide Spliced, Splice, Covered, Increasing, Intact;
    var y: nat :| k <= y < |sorted| && Covers(sorted[y], q);
    var b := Spliced(UpTo(length), sorted, y);
    NotPutBack(length, sorted, k, y, q);
    RemainingAfter(length, sorted, y);
    SplicedNext(UpTo(length), sorted, y);
    StaysRemoved(length, sorted, y + 1, |sorted|, u);
    UncoveredBy(sorted, y, u);
    var z := TakenBehind(b, length, sorted[y], q, u);
    InRange(b, length, z);
    NotPutBack(length, sorted, y + 1, |sorted|, z);
    if Covered(sorted, z) {
      CoveredLater(b, length, sorted, y, z);
      lost := Overreach(length, sorted, y + 1, z, u);
    } else {
      lost := z;
    }
  }

  lemma {:induction false} SplicedNext(b: seq<int>, sorted: seq<Range>, y: nat)
    requires y < |sorted|
    ensures Spliced(b, sorted, y + 1) == Splice(Spliced(b, sorted, y), sorted[y])
  {
  }

  lemma {:induction false} UncoveredBy(sorted: seq<Range>, y: nat, u: int)
    requires y < |sorted| && !Covered(sorted, u)
    ensures !Covers(sorted[y], u)
  {
    assert sorted[y] in sorted;
  }

  lemma {:induction false} InRange(b: seq<int>, length: nat, z: int)
    requires Increasing(b, length) && z in b
    ensures 0 <= z < length
  {
  }

  lemma {:induction false} NotPutBack(length: nat, sorted: seq<Range>, k: nat, l: nat, q: int)
    requires InSpliceOrder(sorted, length) && k <= l <= |sorted|
    ensures q !in Spliced(UpTo(length), sorted, k) ==> q !in Spliced(UpTo(length), sorted, l)
  {
    if q in Spliced(UpTo(length), sorted, l) {
      StaysRemoved(length, sorted, k, l, q);
    }
  }

  /** A byte that is still there, behind the range at hand, is covered by later ranges only. */
  lemma {:induction false} CoveredLater(b: seq<int>, length: nat, sorted: seq<Range>, y: nat, z: int)
    requires y < |sorted| && Remaining(b, length, sorted, y) && z in b && z >= sorted[y].end && Covered(sorted, z)
    ensures exists x :: y + 1 <= x < |sorted| && Covers(sorted[x], z)
  {
    var w :| w in sorted && Covers(w, z);
    var x :| 0 <= x < |sorted| && sorted[x] == w;
    assert !(x < y) && x != y;
  }

  /** The last byte a splice takes, when one of its range is already missing. */
  lemma {:induction false} TakenBehind(b: seq<int>, length: nat, r: Range, q: int, u: int) returns (z: int)
    requires Increasing(b, length) && Intact(b, r.start) && r.start <= r.end
    requires Covers(r, q) && q !in b
    requires u in Splice(b, r) && q < u && !Covers(r, u)
    ensures r.end <= z < u && z in b && z !in Splice(b, r)
  {
    SplicedElements(b, r, u);
    var i :| 0 <= i < |b| && b[i] == u && !Covers(r, i);
    assert i < r.start ==> u == i;
    assert i >= r.end;
    z := b[r.end - 1];
    MissingRunsAhead(b, length, q, r.end - 1);
    SplicedElements(b, r, z);
    assert Covers(r, r.end - 1);
    assert forall j | 0 <= j < |b| && b[j] == z :: j == r.end - 1;
  }

  // ----- The result -----

  lemma {:induction false} KeptElements(length: nat, captures: seq<Range>, i: nat)
    requires i <= length
    ensures var kept := KeptFrom(UpTo(length), captures, i);
            && Increasing(kept, length)
            && (forall p :: p in kept <==> i <= p < length && !Covered(captures, p))
    decreases length - i
  {
    if i < length {
      hide Covered, Increasing, KeptFrom, UpTo;
      KeptElements(length, captures, i + 1);
      KeptStep(length, captures, i);
      if !Covered(captures, i) {
        PutInFront(length, i, KeptFrom(UpTo(length), captures, i + 1));
      }
    }
  }

  lemma {:induction false} KeptStep(length: nat, captures: seq<Range>, i: nat)
    requires i < length
    ensures KeptFrom(UpTo(length), captures, i) ==
            (if Covered(captures, i) then [] else [i]) + KeptFrom(UpTo(length), captures, i + 1)
  {
    assert UpTo(length)[i] == i;
  }

  lemma {:induction false} PutInFront(length: nat, i: nat, rest: seq<int>)
    requires i < length && Increasing(rest, length) && forall p | p in rest :: i < p
    ensures Increasing([i] + rest, length)
    ensures forall p :: p in [i] + rest <==> p == i || p in rest
  {
    assert forall j | 0 <= j < |rest| :: rest[j] in rest;
  }

  lemma {:induction false} FirstIn(b: seq<int>)
    ensures b != [] ==> exists p :: p in b
  {
    if b != [] {
      var p := b[0];
      assert p in b;
    }
  }

  lemma {:induction false} IncreasingUnique(a: seq<int>, b: seq<int>, length: nat)
    requires Increasing(a, length) && Increasing(b, length) && forall p :: p in a <==> p in b
    ensures a == b
  {
    if a != [] && b != [] {
      var m, n := |a| - 1, |b| - 1;
      assert a[m] in b && b[n] in a;
      assert a[m] == b[n];
      forall p ensures p in a[..m] <==> p in b[..n] {
        assert p in a <==> p in a[..m] || p == a[m];
        assert p in b <==> p in b[..n] || p == b[n];
        assert a[m] !in a[..m] && b[n] !in b[..n];
      }
      IncreasingUnique(a[..m], b[..n], length);
      assert a == a[..m] + [a[m]] && b == b[..n] + [b[n]];
    } else {
      FirstIn(a);
      FirstIn(b);
    }
  }

  /** No captured byte ever survives, whatever the captures. */
  lemma {:induction false} NoCapturedByteSurvives(length: nat, captures: seq<Range>, p: int)
    requires InText(captures, length) && p in SplicedAll(UpTo(length), captures)
    ensures 0 <= p < length && !Covered(captures, p)
  {
    var sorted := StableSort(captures, LaterFirst());
    SortedIsInOrder(captures, length);
    RemainingAfter(length, sorted, |sorted|);
    CoveredByAll(sorted, p);
  }

  lemma {:induction false} CoveredByAll(sorted: seq<Range>, p: int)
    ensures Covered(sorted, p) ==> CoveredBefore(sorted, |sorted|, p)
  {
    if Covered(sorted, p) {
      var r :| r in sorted && Covers(r, p);
      var j :| 0 <= j < |sorted| && sorted[j] == r;
    }
  }

  lemma {:induction false} AllPositionsKept(length: nat, captures: seq<Range>)
    requires InText(captures, length) && SharedOnlyAtEnd(captures, length)
    ensures SplicedAll(UpTo(length), captures) == KeptFrom(UpTo(length), captures, 0)
  {
    var sorted := StableSort(captures, LaterFirst());
    var b := SplicedAll(UpTo(length), captures);
    SortedIsInOrder(captures, length);
    SharedPermuted(captures, sorted, length);
    RemainingAfter(length, sorted, |sorted|);
    OnlyTailsAfter(length, sorted, |sorted|);
    KeptElements(length, captures, 0);
    forall p ensures p in b <==> 0 <= p < length && !Covered(captures, p) {
      if p in b {
        NoCapturedByteSurvives(length, captures, p);
      } else if 0 <= p < length {
        assert CoveredBefore(sorted, |sorted|, p) ==> Covered(sorted, p);
        assert TailCovered(sorted, p, length) ==> Covered(sorted, p);
      }
    }
    IncreasingUnique(b, KeptFrom(UpTo(length), captures, 0), length);
  }

  lemma {:induction false} SharingLosesBytes(length: nat, captures: seq<Range>)
    requires InText(captures, length) && !SharedOnlyAtEnd(captures, length)
    ensures SplicedAll(UpTo(length), captures) != KeptFrom(UpTo(length), captures, 0)
  {
    var sorted := StableSort(captures, LaterFirst());
    SortedIsInOrder(captures, length);
    if SharedOnlyAtEnd(sorted, length) {
      SharedPermuted(sorted, captures, length);
    }
    var i, j, p :| 0 <= i < j < |sorted| && Covers(sorted[i], p) && Covers(sorted[j], p) && !TailCovered(sorted, p, length);
    var u :| p <= u < length && !Covered(sorted, u);
    assert sorted[i] in sorted;
    KeptElements(length, captures, 0);
    if u in SplicedAll(UpTo(length), captures) {
      RemainingAfter(length, sorted, j);
      var lost := Overreach(length, sorted, j, p, u);
    }
  }

  lemma {:induction false} SplicePicked<T>(source: seq<T>, b: seq<int>, r: Range)
    requires Increasing(b, |source|) && r.start <= r.end && r.start <= |b|
    ensures Increasing(Splice(b, r), |source|)
    ensures Splice(Pick(source, b), r) == Pick(source, Splice(b, r))
  {
    SplicedIncreasing(b, |source|, r);
  }

  lemma {:induction false} SplicedPicked<T>(source: seq<T>, sorted: seq<Range>, k: nat)
    requires InSpliceOrder(sorted, |source|) && k <= |sorted|
    ensures Increasing(Spliced(UpTo(|source|), sorted, k), |source|)
    ensures Spliced(source, sorted, k) == Pick(source, Spliced(UpTo(|source|), sorted, k))
  {
    RemainingAfter(|source|, sorted, k);
    if k > 0 {
      SplicedPicked(source, sorted, k - 1);
      RemainingAfter(|source|, sorted, k - 1);
      SplicePicked(source, Spliced(UpTo(|source|), sorted, k - 1), sorted[k - 1]);
    } else {
      assert Pick(source, UpTo(|source|)) == source;
    }
  }

  lemma {:induction false} KeptPicked<T>(source: seq<T>, captures: seq<Range>, i: nat)
    requires i <= |source|
    ensures Increasing(KeptFrom(UpTo(|source|), captures, i), |source|)
    ensures KeptFrom(source, captures, i) == Pick(source, KeptFrom(UpTo(|source|), captures, i))
    decreases |source| - i
  {
    KeptElements(|source|, captures, i);
    if i < |source| {
      KeptPicked(source, captures, i + 1);
      PickFirst(source, i, KeptFrom(UpTo(|source|), captures, i + 1));
    }
  }

  lemma {:induction false} PickFirst<T>(source: seq<T>, i: nat, rest: seq<int>)
    requires Increasing(rest, |source|) && i < |source|
    ensures Pick(source, [i] + rest) == [source[i]] + Pick(source, rest)
    ensures Pick(source, [] + rest) == [] + Pick(source, rest)
    ensures UpTo(|source|)[i] == i
  {
  }

  lemma {:induction false} KeptBytesRemain<T>(source: seq<T>, captures: seq<Range>)
    requires InText(captures, |source|) && SharedOnlyAtEnd(captures, |source|)
    ensures SplicedAll(source, captures) == KeptFrom(source, captures, 0)
  {
    var sorted := StableSort(captures, LaterFirst());
    SortedIsInOrder(captures, |source|);
    AllPositionsKept(|source|, captures);
    SplicedPicked(source, sorted, |sorted|);
    KeptPicked(source, captures, 0);
  }

  /** For captures in a text of a given length, the splices remove exactly the captured
      bytes of every text if and only if captures share bytes at its end only. */
  lemma {:induction false} ExactIffSharedOnlyAtEnd(length: nat, captures: seq<Range>)
    requires InText(captures, length)
    ensures SharedOnlyAtEnd(captures, length) <==>
            forall source: seq<int> | |source| == length :: SplicedAll(source, captures) == KeptFrom(source, captures, 0)
  {
    if SharedOnlyAtEnd(captures, length) {
      forall source: seq<int> | |source| == length
        ensures SplicedAll(source, captures) == KeptFrom(source, captures, 0)
      {
        KeptBytesRemain(source, captures);
      }
    } else {
      SharingLosesBytes(length, captures);
      assert |UpTo(length)| == length;
    }
  }

  /** The splice loop of `remove_comments`: for captures given in any order that share no
      byte, except at the end of the text, exactly the bytes outside all of them remain. */
  method RemoveComments<T>(source: seq<T>, captures: seq<Range>) returns (bytes: seq<T>)
    requires InText(captures, |source|)
    ensures bytes == SplicedAll(source, captures)
    ensures SharedOnlyAtEnd(captures, |source|) ==> bytes == KeptFrom(source, captures, 0)
  {
    var sorted := StableSort(captures, LaterFirst());
    bytes := source;
    var k := 0;
    while k < |sorted|
      invariant 0 <= k <= |sorted| && bytes == Spliced(source, sorted, k)
    {
      bytes := Splice(bytes, sorted[k]);
      k := k + 1;
    }
    if SharedOnlyAtEnd(captures, |source|) {
      KeptBytesRemain(source, captures);
    }
  }

  /** Captures without a common byte, given in any order. */
  lemma {:induction false} DisjointCapturesAreExact<T>(source: seq<T>, captures: seq<Range>)
    requires InText(captures, |source|)
    requires forall i, j | 0 <= i < j < |captures| :: captures[i].end <= captures[j].start || captures[j].end <= captures[i].start
    ensures SplicedAll(source, captures) == KeptFrom(source, captures, 0)
  {
    KeptBytesRemain(source, captures);
  }

  /** Of a captured range inside another one, the outer splice also eats bytes behind. */
  lemma {:induction false} NestedCapturesRemoveTooMuch()
    ensures var source, outer, inner := [10, 20, 30, 40, 50], Range(1, 4), Range(2, 3);
            && SplicedAll(source, [outer, inner]) == [10]
            && KeptFrom(source, [outer, inner], 0) == [10, 50]
  {
    var source, outer, inner := [10, 20, 30, 40, 50], Range(1, 4), Range(2, 3);
    SortsInnerFirst(outer, inner);
    assert Spliced(source, [inner, outer], 0) == source;
    assert Spliced(source, [inner, outer], 1) == [10, 20, 40, 50];
    assert Spliced(source, [inner, outer], 2) == [10];
    KeptAroundOuter(source, outer, inner);
  }

  lemma {:induction false} SortsInnerFirst(outer: Range, inner: Range)
    requires outer.start < inner.start
    ensures StableSort([outer, inner], LaterFirst()) == [inner, outer]
  {
    assert [outer, inner][..1] == [outer] && [outer][..0] == [];
    assert StableSort([outer], LaterFirst()) == [outer];
    assert Insert([outer], inner, LaterFirst()) == [inner, outer];
  }

  lemma {:induction false} KeptAroundOuter(source: seq<int>, outer: Range, inner: Range)
    requires |source| == 5 && outer == Range(1, 4) && inner == Range(2, 3)
    ensures KeptFrom(source, [outer, inner], 0) == [source[0], source[4]]
  {
    var captures := [outer, inner];
    assert forall i :: Covered(captures, i) <==> 1 <= i < 4 by {
      assert outer in captures && inner in captures;
    }
    assert KeptFrom(source, captures, 5) == [];
    assert KeptFrom(source, captures, 4) == [source[4]];
    assert KeptFrom(source, captures, 3) == [source[4]];
    assert KeptFrom(source, captures, 2) == [source[4]];
    assert KeptFrom(source, captures, 1) == [source[4]];
  }
}
