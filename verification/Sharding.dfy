/** Splitting samples over workers by stride, evaluating them in batches, and putting
    the workers' rows together again. */
module Sharding {
  import opened Sequences
  import opened Sorting
  import opened Wrappers

  // ----- The stride split -----

  /** `xs[rank::world]`: every element at a position congruent to `rank`. */
  function Stride<T>(xs: seq<T>, rank: nat, world: nat): seq<T>
    requires rank < world
  {
    if xs == [] then []
    else
      var n := |xs| - 1;
      Stride(xs[..n], rank, world) + if Rank(n, world) == rank then [xs[n]] else []
  }

  function Split<T>(xs: seq<T>, world: nat): seq<seq<T>> {
    seq(world, r requires 0 <= r < world => Stride(xs, r, world))
  }

  lemma {:induction false} MulStrict(world: nat, a: int, b: int)
    ensures a < b ==> world * a + world <= world * b
  {
    if a < b {
      MulNonNegative(world, b - a - 1);
      MulDistributes(world, b, a + 1);
      MulDistributes(world, a + 1, 1);
    }
  }

  lemma {:induction false} MulNonNegative(a: nat, b: nat)
    ensures a * b >= 0
  {
  }

  lemma {:induction false} MulDistributes(a: int, b: int, c: int)
    ensures a * (b - c) == a * b - a * c
  {
  }

  lemma {:induction false} DivModUnique(a: nat, world: nat, q: nat, r: nat)
    requires r < world && a == world * q + r
    ensures a / world == q && a % world == r
  {
    hide *;
    var q' := a / world;
    assert a == world * q' + a % world && 0 <= a % world < world;
    MulStrict(world, q, q');
    MulStrict(world, q', q);
  }

  /** The position that element `j` of shard `rank` comes from; the shard of a position,
      and its place in that shard. */
  function At(rank: nat, world: nat, j: nat): nat { rank + world * j }

  function Rank(i: nat, world: nat): (rank: nat)
    requires world > 0
    ensures rank < world
  {
    i % world
  }

  function Slot(i: nat, world: nat): nat
    requires world > 0
  {
    i / world
  }

  lemma {:induction false} PlaceOfAt(rank: nat, world: nat, j: nat)
    requires rank < world
    ensures Rank(At(rank, world, j), world) == rank && Slot(At(rank, world, j), world) == j
  {
    DivModUnique(rank + world * j, world, j, rank);
  }

  lemma {:induction false} AtOfPlace(i: nat, world: nat)
    requires world > 0
    ensures At(Rank(i, world), world, Slot(i, world)) == i
  {
  }

  lemma {:induction false} AtGrows(rank: nat, world: nat, j: nat, k: nat)
    requires rank < world
    ensures j < k <==> At(rank, world, j) < At(rank, world, k)
  {
    hide *;
    AtIs(rank, world, j);
    AtIs(rank, world, k);
    MulStrict(world, j, k);
    MulStrict(world, k, j);
  }

  lemma {:induction false} AtIs(rank: nat, world: nat, j: nat)
    ensures At(rank, world, j) == rank + world * j
  {
  }

  /** A shard of `n` elements holds exactly those whose position it owns. */
  ghost predicate StrideLength(length: nat, rank: nat, world: nat, n: nat) {
    forall j: nat :: j < length <==> At(rank, world, j) < n
  }

  /** Which elements a shard holds, and in which places. */
  lemma {:induction false} StrideAt<T>(xs: seq<T>, rank: nat, world: nat)
    requires rank < world
    ensures StrideLength(|Stride(xs, rank, world)|, rank, world, |xs|)
    ensures forall j: nat | j < |Stride(xs, rank, world)| ::
              At(rank, world, j) < |xs| && Stride(xs, rank, world)[j] == xs[At(rank, world, j)]
  {
    hide At, Rank;
    if xs != [] {
      var n := |xs| - 1;
      StrideAt(xs[..n], rank, world);
      StrideOfFront(xs, rank, world);
      StrideEnd(n, rank, world, |Stride(xs[..n], rank, world)|);
    } else {
      forall j: nat ensures At(rank, world, j) >= 0 {
      }
    }
  }

  lemma {:induction false} StrideOfFront<T>(xs: seq<T>, rank: nat, world: nat)
    requires rank < world && xs != []
    ensures Stride(xs, rank, world) ==
            Stride(xs[..|xs| - 1], rank, world) + if Rank(|xs| - 1, world) == rank then [xs[|xs| - 1]] else []
  {
  }

  /** If a shard of the first `n` elements has `k`, position `n` is its own exactly if it is
      its place `k`. */
  lemma {:induction false} StrideEnd(n: nat, rank: nat, world: nat, k: nat)
    requires rank < world && StrideLength(k, rank, world, n)
    ensures Rank(n, world) == rank <==> n == At(rank, world, k)
    ensures StrideLength(if Rank(n, world) == rank then k + 1 else k, rank, world, n + 1)
  {
    hide At, Rank, Slot;
    PlaceOfAt(rank, world, k);
    AtOfPlace(n, world);
    AtGrows(rank, world, k, Slot(n, world));
    var length := if Rank(n, world) == rank then k + 1 else k;
    forall j: nat ensures j < length <==> At(rank, world, j) < n + 1 {
      PlaceOfAt(rank, world, j);
      AtGrows(rank, world, k, j);
    }
  }

  lemma {:induction false} ConcatGrows<T>(shards: seq<seq<T>>, r: nat, x: T)
    requires r < |shards|
    ensures multiset(Concat(shards[r := shards[r] + [x]])) == multiset(Concat(shards)) + multiset{x}
  {
    var n := |shards| - 1;
    var grown := shards[r := shards[r] + [x]];
    if r < n {
      ConcatGrows(shards[..n], r, x);
      assert grown[..n] == shards[..n][r := shards[r] + [x]];
    } else {
      assert grown[..n] == shards[..n];
    }
  }

  lemma {:induction false} ConcatOfNothing<T>(shards: seq<seq<T>>)
    requires forall r | 0 <= r < |shards| :: shards[r] == []
    ensures Concat(shards) == []
  {
    if shards != [] {
      ConcatOfNothing(shards[..|shards| - 1]);
    }
  }

  /** No worker count loses or repeats an element. */
  lemma {:induction false} SplitKeepsAll<T>(xs: seq<T>, world: nat)
    requires world > 0
    ensures multiset(Concat(Split(xs, world))) == multiset(xs)
  {
    hide Concat, Stride, Rank;
    if xs == [] {
      SplitOfNothing<T>(world);
      ConcatOfNothing(Split(xs, world));
    } else {
      var n := |xs| - 1;
      SplitKeepsAll(xs[..n], world);
      SplitStep(xs, world);
      ConcatGrows(Split(xs[..n], world), Rank(n, world), xs[n]);
      assert xs == xs[..n] + [xs[n]];
    }
  }

  lemma {:induction false} SplitOfNothing<T>(world: nat)
    ensures forall r | 0 <= r < world :: Split<T>([], world)[r] == []
  {
  }

  lemma {:induction false} SplitStep<T>(xs: seq<T>, world: nat)
    requires world > 0 && xs != []
    ensures var n := |xs| - 1;
            var r := Rank(n, world);
            Split(xs, world) == Split(xs[..n], world)[r := Split(xs[..n], world)[r] + [xs[n]]]
  {
    hide Rank;
    var n := |xs| - 1;
    var front := Split(xs[..n], world);
    var r := Rank(n, world);
    forall i: nat | i < world ensures Split(xs, world)[i] == front[r := front[r] + [xs[n]]][i] {
      assert Split(xs, world)[i] == Stride(xs, i, world);
      assert front[i] == Stride(xs[..n], i, world);
    }
  }

  // ----- Evaluating one shard -----

  datatype Sample<S> = Sample(index: int, input: S)

  datatype Outcome<O> = Answered(prediction: O) | ModelFailed

  datatype Row<O> = Row(index: int, outcome: Outcome<O>)

  /** The model behind a worker: what it returns for the batch at an offset, or nothing
      when it raises. */
  type Model<!S, !O> = (nat, seq<Sample<S>>) -> Option<seq<O>>

  function Batch<S>(samples: seq<S>, start: nat, size: nat): seq<S>
    requires start <= |samples|
  {
    samples[start..if start + size <= |samples| then start + size else |samples|]
  }

  /** The outcome for sample `i` of a batch: a call that raises, or answers with the
      wrong number of predictions, fails the whole batch. */
  function OutcomeIn<O>(answers: Option<seq<O>>, batchSize: nat, i: nat): Outcome<O>
    requires i < batchSize
  {
    if answers.Some? && |answers.value| == batchSize then Answered(answers.value[i]) else ModelFailed
  }

  /** What sample `i` is owed: its own prediction out of its own batch. */
  function Owed<S, O>(samples: seq<Sample<S>>, size: nat, model: Model<S, O>, i: nat): Outcome<O>
    requires size > 0 && i < |samples|
  {
    var start := BatchStart(size, i);
    var batch := Batch(samples, start, size);
    OutcomeIn(model(start, batch), |batch|, i - start)
  }

  function BatchStart(size: nat, i: nat): (start: nat)
    requires size > 0
    ensures start <= i < start + size
  {
    size * (i / size)
  }

  lemma {:induction false} BatchStartIs(size: nat, k: nat, i: nat)
    requires size > 0 && size * k <= i < size * k + size
    ensures BatchStart(size, i) == size * k
  {
    DivModUnique(i, size, k, i - size * k);
  }

  /** A sample's outcome, in the terms of its batch: the samples from the last multiple of the
      size on, as many as the size or as there are.  It is answered exactly if the model
      returns one prediction for each, and then with the one at its place. */
  lemma {:induction false} OwedIs<S, O>(samples: seq<Sample<S>>, size: nat, model: Model<S, O>, k: nat, i: nat, end: nat)
    requires size > 0 && size * k <= i < end <= |samples|
    requires end == size * k + size || (end < size * k + size && end == |samples|)
    ensures var answers := model(size * k, samples[size * k..end]);
            Owed(samples, size, model, i) ==
            if answers.Some? && |answers.value| == end - size * k then Answered(answers.value[i - size * k]) else ModelFailed
  {
    BatchStartIs(size, k, i);
    assert Batch(samples, size * k, size) == samples[size * k..end];
  }

  ghost predicate Evaluates<S, O>(rows: seq<Row<O>>, samples: seq<Sample<S>>, size: nat, model: Model<S, O>)
    requires size > 0
  {
    && |rows| <= |samples|
    && forall i | 0 <= i < |rows| :: rows[i] == Row(samples[i].index, Owed(samples, size, model, i))
  }

  /** `_append_batch_records` */
  method AppendBatchRecords<S, O>(rows: seq<Row<O>>, batch: seq<Sample<S>>, answers: Option<seq<O>>)
    returns (rows': seq<Row<O>>)
    ensures rows' == rows + seq(|batch|, i requires 0 <= i < |batch| => Row(batch[i].index, OutcomeIn(answers, |batch|, i)))
  {
    rows' := rows;
    var i := 0;
    while i < |batch|
      invariant 0 <= i <= |batch| && |rows'| == |rows| + i
      invariant forall k | 0 <= k < |rows'| :: rows'[k] ==
                  if k < |rows| then rows[k]
                  else Row(batch[k - |rows|].index, OutcomeIn(answers, |batch|, k - |rows|))
    {
      rows' := rows' + [Row(batch[i].index, OutcomeIn(answers, |batch|, i))];
      i := i + 1;
    }
  }

  /** `evaluate_samples`.  A batch size of zero raises; a negative one evaluates nothing. */
  method EvaluateSamples<S, O>(samples: seq<Sample<S>>, batchSize: int, model: Model<S, O>)
    returns (rows: Option<seq<Row<O>>>)
    ensures rows.None? <==> batchSize == 0
    ensures batchSize < 0 ==> rows == Some([])
    ensures batchSize > 0 ==> |rows.value| == |samples| && Evaluates(rows.value, samples, batchSize, model)
  {
    if batchSize == 0 {
      return None;
    } else if batchSize < 0 {
      return Some([]);
    }
    var done: seq<Row<O>> := [];
    var start: nat := 0;
    ghost var k: nat := 0;
    while start < |samples|
      invariant start == batchSize * k
      invariant |done| == if start <= |samples| then start else |samples|
      invariant Evaluates(done, samples, batchSize, model)
    {
      done := EvaluateBatch(samples, batchSize, model, start, k, done);
      start := start + batchSize;
      k := k + 1;
      assert start == batchSize * k;
    }
    return Some(done);
  }

  method EvaluateBatch<S, O>(samples: seq<Sample<S>>, size: nat, model: Model<S, O>, start: nat, ghost k: nat,
                             rows: seq<Row<O>>)
    returns (rows': seq<Row<O>>)
    requires size > 0 && start == size * k && start < |samples|
    requires |rows| == start && Evaluates(rows, samples, size, model)
    ensures |rows'| == if start + size <= |samples| then start + size else |samples|
    ensures Evaluates(rows', samples, size, model)
  {
    hide OutcomeIn, Owed;
    var batch := Batch(samples, start, size);
    rows' := AppendBatchRecords(rows, batch, model(start, batch));
    forall i: nat | i < |rows'| ensures rows'[i] == Row(samples[i].index, Owed(samples, size, model, i)) {
      if i >= start {
        PlaceInBatch(samples, size, model, k, i);
      }
    }
  }

  lemma {:induction false} PlaceInBatch<S, O>(samples: seq<Sample<S>>, size: nat, model: Model<S, O>, k: nat, i: nat)
    requires size > 0 && size * k <= i < |samples| && i < size * k + size
    ensures var start := size * k;
            var batch := Batch(samples, start, size);
            && i - start < |batch| && batch[i - start] == samples[i]
            && Owed(samples, size, model, i) == OutcomeIn(model(start, batch), |batch|, i - start)
  {
    BatchStartIs(size, k, i);
  }

  // ----- Merging -----

  predicate ByIndex<O>(a: Row<O>, b: Row<O>) { a.index <= b.index }

  predicate AtMost(a: int, b: int) { a <= b }

  function Indices<O>(rows: seq<Row<O>>): seq<int> {
    seq(|rows|, i requires 0 <= i < |rows| => rows[i].index)
  }

  /** `merge_worker_outputs` for one artifact; a worker whose file is missing is `None`. */
  method MergeWorkerOutputs<O>(files: seq<Option<seq<Row<O>>>>) returns (merged: Option<seq<Row<O>>>)
    ensures merged.None? <==> None in files
    ensures merged.Some? ==> merged.value == StableSort(Concat(Present(files)), ByIndex)
  {
    var rows: seq<Row<O>> := [];
    var rank := 0;
    while rank < |files|
      invariant 0 <= rank <= |files| && None !in files[..rank]
      invariant rows == Concat(Present(files[..rank]))
    {
      if files[rank].None? {
        return None;
      }
      PresentNext(files, rank);
      rows := rows + files[rank].value;
      rank := rank + 1;
    }
    assert files[..rank] == files;
    return Some(StableSort(rows, ByIndex));
  }

  lemma {:induction false} PresentNext<R>(files: seq<Option<seq<R>>>, rank: nat)
    requires rank < |files| && files[rank].Some?
    ensures Concat(Present(files[..rank + 1])) == Concat(Present(files[..rank])) + files[rank].value
  {
    assert Present(files[..rank + 1]) == Present(files[..rank]) + [files[rank].value];
    assert Present(files[..rank + 1])[..rank] == Present(files[..rank]);
  }

  function Present<R>(files: seq<Option<seq<R>>>): seq<seq<R>> {
    seq(|files|, r requires 0 <= r < |files| => if files[r].Some? then files[r].value else [])
  }

  datatype Complaint = WrongCount | WrongIdentities | FailedRows

  /** The first three checks of `validate_run`. */
  function Validate<O>(rows: seq<Row<O>>, expected: nat): Option<Complaint> {
    if |rows| != expected then Some(WrongCount)
    else if Indices(rows) != UpTo(expected) then Some(WrongIdentities)
    else if !AllAnswered(rows) then Some(FailedRows)
    else None
  }

  lemma {:induction false} IndicesOfInsert<O>(rows: seq<Row<O>>, row: Row<O>)
    ensures Indices(Insert(rows, row, ByIndex)) == Insert(Indices(rows), row.index, AtMost)
  {
    if rows != [] {
      var n := |rows| - 1;
      IndicesOfInsert(rows[..n], row);
      assert Indices(rows)[..n] == Indices(rows[..n]);
      IndicesOfAppended(rows, row);
      IndicesOfAppended(Insert(rows[..n], row, ByIndex), rows[n]);
    }
  }

  lemma {:induction false} IndicesOfAppended<O>(rows: seq<Row<O>>, row: Row<O>)
    ensures Indices(rows + [row]) == Indices(rows) + [row.index]
  {
  }

  lemma {:induction false} IndicesOfSort<O>(rows: seq<Row<O>>)
    ensures Indices(StableSort(rows, ByIndex)) == StableSort(Indices(rows), AtMost)
  {
    if rows != [] {
      var n := |rows| - 1;
      IndicesOfSort(rows[..n]);
      assert Indices(rows)[..n] == Indices(rows[..n]);
      IndicesOfInsert(StableSort(rows[..n], ByIndex), rows[n]);
    }
  }

  /** The merged file passes the count and identity checks exactly when the workers'
      files, in whatever order, hold every index once. */
  lemma {:induction false} AcceptedIffEachOnce<O>(rows: seq<Row<O>>, expected: nat)
    ensures Validate(StableSort(rows, ByIndex), expected) !in {Some(WrongCount), Some(WrongIdentities)} <==>
            multiset(Indices(rows)) == multiset(UpTo(expected))
  {
    hide *;
    IndicesOfSort(rows);
    ValidateIndices(StableSort(rows, ByIndex), expected);
    UpToFacts(expected);
    if multiset(Indices(rows)) == multiset(UpTo(expected)) {
      IntsOrdered(Elements(Indices(rows)));
      SortSorted(Indices(rows), AtMost);
      IntsOrdered(Elements(StableSort(Indices(rows), AtMost)));
      SortedUnique(StableSort(Indices(rows), AtMost), UpTo(expected), AtMost);
    }
  }

  lemma {:induction false} ValidateIndices<O>(rows: seq<Row<O>>, expected: nat)
    ensures Validate(rows, expected) !in {Some(WrongCount), Some(WrongIdentities)} <==> Indices(rows) == UpTo(expected)
  {
    assert |Indices(rows)| == |rows| && |UpTo(expected)| == expected;
  }

  lemma {:induction false} UpToFacts(n: nat)
    ensures Sorted(UpTo(n), AtMost)
  {
  }

  lemma {:induction false} IntsOrdered(s: set<int>)
    ensures Orders(AtMost, s) && Antisymmetric(AtMost, s)
  {
  }

  // ----- The whole run -----

  /** Every shard has the length of its stride. */
  ghost predicate FitsSplit<R>(shards: seq<seq<R>>, n: nat) {
    && |shards| > 0
    && forall r: nat | r < |shards| :: StrideLength(|shards[r]|, r, |shards|, n)
  }

  lemma {:induction false} Placed<R>(shards: seq<seq<R>>, n: nat, i: nat)
    requires FitsSplit(shards, n) && i < n
    ensures Slot(i, |shards|) < |shards[Rank(i, |shards|)]|
  {
    hide At, Rank, Slot;
    AtOfPlace(i, |shards|);
    assert StrideLength(|shards[Rank(i, |shards|)]|, Rank(i, |shards|), |shards|, n);
  }

  /** Every position has the row that its worker wrote for it. */
  ghost predicate InOrder<R>(rows: seq<R>, shards: seq<seq<R>>)
    requires |shards| > 0
  {
    forall i: nat | i < |rows| ::
      Slot(i, |shards|) < |shards[Rank(i, |shards|)]| && rows[i] == shards[Rank(i, |shards|)][Slot(i, |shards|)]
  }

  lemma {:induction false} RowsInOrder<R>(shards: seq<seq<R>>, n: nat) returns (rows: seq<R>)
    requires |shards| > 0 && FitsSplit(shards, n)
    ensures |rows| == n && InOrder(rows, shards)
  {
    hide FitsSplit, Rank, Slot;
    rows := [];
    for i: nat := 0 to n
      invariant |rows| == i && InOrder(rows, shards)
    {
      Placed(shards, n, i);
      rows := rows + [shards[Rank(i, |shards|)][Slot(i, |shards|)]];
    }
  }

  lemma {:induction false} StrideOfOrdered<R>(rows: seq<R>, shards: seq<seq<R>>, r: nat)
    requires FitsSplit(shards, |rows|) && InOrder(rows, shards) && r < |shards|
    ensures Stride(rows, r, |shards|) == shards[r]
  {
    hide At, Rank, Slot, Stride;
    StrideAt(rows, r, |shards|);
    assert StrideLength(|shards[r]|, r, |shards|, |rows|);
    SameLength(|Stride(rows, r, |shards|)|, |shards[r]|, r, |shards|, |rows|);
    forall j: nat | j < |shards[r]| ensures Stride(rows, r, |shards|)[j] == shards[r][j] {
      PlaceOfAt(r, |shards|, j);
    }
  }

  lemma {:induction false} SameLength(a: nat, b: nat, r: nat, world: nat, n: nat)
    requires StrideLength(a, r, world, n) && StrideLength(b, r, world, n)
    ensures a == b
  {
    hide At;
    assert a < b <==> At(r, world, a) < n && a < b;
    assert b < a <==> At(r, world, b) < n && b < a;
  }

  lemma {:induction false} SplitOfOrdered<R>(rows: seq<R>, shards: seq<seq<R>>)
    requires FitsSplit(shards, |rows|) && InOrder(rows, shards)
    ensures Split(rows, |shards|) == shards
  {
    hide InOrder, Stride, StrideLength;
    forall r: nat | r < |shards| ensures Split(rows, |shards|)[r] == shards[r] {
      StrideOfOrdered(rows, shards, r);
    }
  }

  /** The rows of one worker carry the indices of its stride. */
  ghost predicate IndexedAs<O>(rows: seq<Row<O>>, rank: nat, world: nat) {
    forall j: nat | j < |rows| :: rows[j].index == At(rank, world, j)
  }

  lemma {:induction false} OrderedIndices<O>(rows: seq<Row<O>>, shards: seq<seq<Row<O>>>)
    requires |shards| > 0 && InOrder(rows, shards)
    requires forall r: nat | r < |shards| :: IndexedAs(shards[r], r, |shards|)
    ensures Indices(rows) == UpTo(|rows|)
  {
    hide At, Rank, Slot;
    forall i: nat | i < |rows| ensures rows[i].index == i {
      AtOfPlace(i, |shards|);
      assert IndexedAs(shards[Rank(i, |shards|)], Rank(i, |shards|), |shards|);
    }
  }

  lemma {:induction false} SortOfConcat<O>(shards: seq<seq<Row<O>>>, rows: seq<Row<O>>)
    requires multiset(Concat(shards)) == multiset(rows)
    requires Indices(rows) == UpTo(|rows|)
    ensures StableSort(Concat(shards), ByIndex) == rows
  {
    hide Concat, Insert, StableSort;
    assert forall i: nat | i < |rows| :: rows[i].index == Indices(rows)[i] == i;
    SortSorted(Concat(shards), ByIndex);
    var sorted := StableSort(Concat(shards), ByIndex);
    SortedUnique(rows, sorted, ByIndex);
  }

  /** The rows of all workers, sorted by index, are the rows in sample order: row `i` is
      the row that worker `i % world` wrote as its row `i / world`. */
  lemma {:induction false} MergeUndoesSplit<O>(shards: seq<seq<Row<O>>>, n: nat)
    requires |shards| > 0 && FitsSplit(shards, n)
    requires forall r: nat | r < |shards| :: IndexedAs(shards[r], r, |shards|)
    ensures var merged := StableSort(Concat(shards), ByIndex);
            Indices(merged) == UpTo(n) && |merged| == n && InOrder(merged, shards)
  {
    hide *;
    var rows := RowsInOrder(shards, n);
    OrderedIndices(rows, shards);
    SplitOfOrdered(rows, shards);
    SplitKeepsAll(rows, |shards|);
    SortOfConcat(shards, rows);
  }

  ghost predicate Wrote<S, O>(file: Option<seq<Row<O>>>, stride: seq<Sample<S>>, size: nat, model: Model<S, O>)
    requires size > 0
  {
    file.Some? && |file.value| == |stride| && Evaluates(file.value, stride, size, model)
  }

  /** Sample `i` has the outcome that its worker's batches gave it. */
  ghost predicate OutcomesOf<S, O>(merged: seq<Row<O>>, samples: seq<Sample<S>>, world: nat, size: nat,
                                   models: nat -> Model<S, O>)
    requires world > 0 && size > 0
  {
    && |merged| == |samples|
    && forall i: nat | i < |samples| ::
         IsOwed(merged[i].outcome, Stride(samples, Rank(i, world), world), size, models(Rank(i, world)), Slot(i, world))
  }

  ghost predicate IsOwed<S, O>(outcome: Outcome<O>, stride: seq<Sample<S>>, size: nat, model: Model<S, O>, j: nat)
    requires size > 0
  {
    j < |stride| && outcome == Owed(stride, size, model, j)
  }

  lemma {:induction false} PresentAt<R>(files: seq<Option<seq<R>>>)
    ensures |Present(files)| == |files|
    ensures forall r | 0 <= r < |files| && files[r].Some? :: Present(files)[r] == files[r].value
  {
  }

  lemma {:induction false} ShardsFit<R>(shards: seq<seq<R>>, n: nat)
    requires |shards| > 0 && forall r: nat | r < |shards| :: StrideLength(|shards[r]|, r, |shards|, n)
    ensures FitsSplit(shards, n)
  {
  }

  lemma {:induction false} ShardIs<S, O>(samples: seq<Sample<S>>, file: Option<seq<Row<O>>>, r: nat, world: nat,
                                         size: nat, model: Model<S, O>)
    requires forall i | 0 <= i < |samples| :: samples[i].index == i
    requires size > 0 && r < world && Wrote(file, Stride(samples, r, world), size, model)
    ensures file.Some? && StrideLength(|file.value|, r, world, |samples|)
    ensures IndexedAs(file.value, r, world)
  {
    hide At, Stride, Owed;
    StrideAt(samples, r, world);
  }

  lemma {:induction false} OutcomesOfOrdered<S, O>(merged: seq<Row<O>>, files: seq<Option<seq<Row<O>>>>,
                                                   samples: seq<Sample<S>>, size: nat, models: nat -> Model<S, O>)
    requires size > 0 && |files| > 0 && |merged| == |samples|
    requires forall r: nat | r < |files| :: Wrote(files[r], Stride(samples, r, |files|), size, models(r))
    requires |Present(files)| == |files| && InOrder(merged, Present(files))
    ensures OutcomesOf(merged, samples, |files|, size, models)
  {
    hide Rank, Slot, Stride, Owed, Present;
    PresentAt(files);
    forall i: nat | i < |samples|
      ensures IsOwed(merged[i].outcome, Stride(samples, Rank(i, |files|), |files|), size, models(Rank(i, |files|)),
                     Slot(i, |files|))
    {
      assert Wrote(files[Rank(i, |files|)], Stride(samples, Rank(i, |files|), |files|), size, models(Rank(i, |files|)));
    }
  }

  /** For every number of workers and every batch size the merged file holds each sample
      once, at its own position, with the outcome its own worker owes it. */
  lemma {:induction false} Reassembled<S, O>(samples: seq<Sample<S>>, files: seq<Option<seq<Row<O>>>>, size: nat,
                                             models: nat -> Model<S, O>)
    requires |files| > 0 && size > 0
    requires forall i | 0 <= i < |samples| :: samples[i].index == i
    requires forall r: nat | r < |files| :: Wrote(files[r], Stride(samples, r, |files|), size, models(r))
    ensures var merged := StableSort(Concat(Present(files)), ByIndex);
            Indices(merged) == UpTo(|samples|) && OutcomesOf(merged, samples, |files|, size, models)
  {
    hide *;
    var shards: seq<seq<Row<O>>> := Present(files);
    PresentAt(files);
    forall r: nat | r < |shards|
      ensures StrideLength(|shards[r]|, r, |shards|, |samples|) && IndexedAs(shards[r], r, |shards|)
    {
      ShardIs(samples, files[r], r, |files|, size, models(r));
    }
    ShardsFit(shards, |samples|);
    MergeUndoesSplit(shards, |samples|);
    OutcomesOfOrdered(StableSort(Concat(shards), ByIndex), files, samples, size, models);
  }

  /** A run over `world` workers: every worker evaluates its stride, the parent merges
      their files and validates the result. */
  method ShardedRun<S, O>(samples: seq<Sample<S>>, world: nat, batchSize: nat, models: nat -> Model<S, O>)
    returns (merged: seq<Row<O>>, complaint: Option<Complaint>)
    requires world >= 1 && batchSize >= 1
    requires forall i | 0 <= i < |samples| :: samples[i].index == i
    ensures Indices(merged) == UpTo(|samples|)
    ensures OutcomesOf(merged, samples, world, batchSize, models)
    ensures complaint == if AllAnswered(merged) then None else Some(FailedRows)
    ensures complaint == None <==> forall row | row in merged :: row.outcome.Answered?
  {
    hide OutcomesOf, Stride, Wrote, AllAnswered;
    var files: seq<Option<seq<Row<O>>>> := [];
    var rank: nat := 0;
    while rank < world
      invariant rank <= world && |files| == rank
      invariant forall r: nat | r < rank :: Wrote(files[r], Stride(samples, r, world), batchSize, models(r))
    {
      var rows := EvaluateSamples(Stride(samples, rank, world), batchSize, models(rank));
      WroteAll(rows, Stride(samples, rank, world), batchSize, models(rank));
      files := files + [rows];
      rank := rank + 1;
    }
    NoneMissing(samples, files, batchSize, models);
    var m := MergeWorkerOutputs(files);
    merged := m.value;
    Reassembled(samples, files, batchSize, models);
    complaint := Validate(merged, |samples|);
    AnsweredIff(merged);
    assert |Indices(merged)| == |merged|;
  }

  predicate AllAnswered<O>(rows: seq<Row<O>>) {
    forall i | 0 <= i < |rows| :: rows[i].outcome.Answered?
  }

  lemma {:induction false} AnsweredIff<O>(rows: seq<Row<O>>)
    ensures AllAnswered(rows) <==> forall row | row in rows :: row.outcome.Answered?
  {
    assert forall i | 0 <= i < |rows| :: rows[i] in rows;
  }

  lemma {:induction false} WroteAll<S, O>(file: Option<seq<Row<O>>>, stride: seq<Sample<S>>, size: nat,
                                          model: Model<S, O>)
    requires size > 0 && file.Some? && |file.value| == |stride| && Evaluates(file.value, stride, size, model)
    ensures Wrote(file, stride, size, model)
  {
  }

  lemma {:induction false} NoneMissing<S, O>(samples: seq<Sample<S>>, files: seq<Option<seq<Row<O>>>>, size: nat,
                                             models: nat -> Model<S, O>)
    requires size > 0
    requires forall r: nat | r < |files| :: Wrote(files[r], Stride(samples, r, |files|), size, models(r))
    ensures None !in files
  {
  }
}
