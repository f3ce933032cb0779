/** Merging the rows of LongBench workers into one artifact: no sample twice, none
    without an identity, and one order. */
module LongBenchMerge {
  import opened Wrappers
  import opened Sequences
  import opened Sorting
  import opened Strings

  /** A worker's row.  `dataset` and `sourceIdx` are absent when the row lacks them or has
      them with another type; a row without `sample_idx` has -1 there. */
  datatype Row<P> = Row(dataset: Option<string>, sourceIdx: Option<int>, sampleIdx: int, payload: P)

  datatype Id = Id(dataset: string, sourceIdx: int)

  datatype MergeError = LacksIdentity | Duplicate(id: Id)

  /** The rows of a task artifact belong to that data set, whatever they say. */
  function Identity<P>(task: Option<string>, row: Row<P>): Option<Id> {
    var dataset := if task.Some? then task else row.dataset;
    if dataset.Some? && row.sourceIdx.Some? then Some(Id(dataset.value, row.sourceIdx.value)) else None
  }

  ghost predicate Clean<P>(task: Option<string>, rows: seq<Row<P>>) {
    && (forall i | 0 <= i < |rows| :: Identity(task, rows[i]).Some?)
    && (forall i, j | 0 <= i < j < |rows| :: Identity(task, rows[i]) != Identity(task, rows[j]))
  }

  predicate IdLeq(a: Id, b: Id) {
    if a.dataset == b.dataset then a.sourceIdx <= b.sourceIdx else LexLeq(a.dataset, b.dataset)
  }

  /** The sort key: data set, source index, sample index. */
  predicate KeyLeq<P>(task: Option<string>, a: Row<P>, b: Row<P>) {
    var x, y := Identity(task, a), Identity(task, b);
    if x.Some? && y.Some? then
      if x.value == y.value then a.sampleIdx <= b.sampleIdx else IdLeq(x.value, y.value)
    else
      x.None?
  }

  function ByKey<P>(task: Option<string>): (Row<P>, Row<P>) -> bool {
    (a, b) => KeyLeq(task, a, b)
  }

  /** Strictly increasing in data set and source index: the sample index never decides. */
  ghost predicate StrictlyOrdered<P>(task: Option<string>, rows: seq<Row<P>>) {
    && (forall i | 0 <= i < |rows| :: Identity(task, rows[i]).Some?)
    && (forall i, j | 0 <= i < j < |rows| ::
          var a, b := Identity(task, rows[i]).value, Identity(task, rows[j]).value;
          IdLeq(a, b) && a != b)
  }

  /** Row `k` is the first without an identity of its own. */
  ghost predicate FirstFault<P>(task: Option<string>, rows: seq<Row<P>>, k: nat, error: MergeError) {
    && k < |rows| && Clean(task, rows[..k])
    && match error
       case LacksIdentity => Identity(task, rows[k]) == None
       case Duplicate(id) => Identity(task, rows[k]) == Some(id) && exists i :: 0 <= i < k && Identity(task, rows[i]) == Some(id)
  }

  ghost predicate Faulty<P>(task: Option<string>, rows: seq<Row<P>>, error: MergeError) {
    exists k: nat :: FirstFault(task, rows, k, error)
  }

  lemma {:induction false} SplitAt<T>(a: seq<T>, b: seq<T>, i: nat)
    requires i < |b|
    ensures (a + b)[..|a + b[..i]|] == a + b[..i] && (a + b)[|a + b[..i]|] == b[i]
    ensures a + b[..i] + [b[i]] == a + b[..i + 1]
  {
  }

  /** What makes row `k` the first fault. */
  lemma {:induction false} FaultIs<P>(task: Option<string>, rows: seq<Row<P>>, k: nat, error: MergeError)
    requires k < |rows| && Clean(task, rows[..k])
    requires match error
             case LacksIdentity => Identity(task, rows[k]) == None
             case Duplicate(id) =>
               && Identity(task, rows[k]) == Some(id)
               && exists i :: 0 <= i < k && Identity(task, rows[..k][i]) == Some(id)
    ensures Faulty(task, rows, error)
  {
    if error.Duplicate? {
      var i :| 0 <= i < k && Identity(task, rows[..k][i]) == Some(error.id);
      assert Identity(task, rows[i]) == Some(error.id);
    }
    assert FirstFault(task, rows, k, error);
  }

  /** The loop over the rows of one worker. */
  method ReadWorker<P>(task: Option<string>, worker: seq<Row<P>>, merged: seq<Row<P>>, observed: set<Id>)
    returns (merged': seq<Row<P>>, observed': set<Id>, error: Option<MergeError>)
    requires Clean(task, merged) && observed == Ids(task, merged)
    ensures error.None? ==> merged' == merged + worker && Clean(task, merged') && observed' == Ids(task, merged')
    ensures error.Some? ==> Faulty(task, merged + worker, error.value)
  {
    hide Identity, Clean, Ids, Faulty;
    merged', observed', error := merged, observed, None;
    for i := 0 to |worker|
      invariant merged' == merged + worker[..i]
      invariant Clean(task, merged') && observed' == Ids(task, merged')
    {
      var row := worker[i];
      var id := Identity(task, row);
      SplitAt(merged, worker, i);
      if id.None? {
        FaultIs(task, merged + worker, |merged'|, LacksIdentity);
        return merged', observed', Some(LacksIdentity);
      }
      if id.value in observed' {
        IdsAre(task, merged', id.value);
        FaultIs(task, merged + worker, |merged'|, Duplicate(id.value));
        return merged', observed', Some(Duplicate(id.value));
      }
      observed' := observed' + {id.value};
      CleanAppend(task, merged', row);
      merged' := merged' + [row];
    }
    assert worker[..|worker|] == worker;
  }

  /** The identities seen so far. */
  ghost function Ids<P>(task: Option<string>, rows: seq<Row<P>>): set<Id> {
    if rows == [] then {}
    else
      var n := |rows| - 1;
      Ids(task, rows[..n]) + match Identity(task, rows[n]) case Some(id) => {id} case None => {}
  }

  lemma {:induction false} IdsAre<P>(task: Option<string>, rows: seq<Row<P>>, id: Id)
    ensures id in Ids(task, rows) <==> exists i :: 0 <= i < |rows| && Identity(task, rows[i]) == Some(id)
  {
    if rows != [] {
      var n := |rows| - 1;
      IdsAre(task, rows[..n], id);
      if id in Ids(task, rows[..n]) {
        var i :| 0 <= i < n && Identity(task, rows[..n][i]) == Some(id);
        assert Identity(task, rows[i]) == Some(id);
      } else {
        assert forall i | 0 <= i < n :: Identity(task, rows[..n][i]) != Some(id) && rows[..n][i] == rows[i];
        if Identity(task, rows[n]) == Some(id) {
          assert id in Ids(task, rows);
        }
      }
    }
  }

  lemma {:induction false} CleanAppend<P>(task: Option<string>, rows: seq<Row<P>>, row: Row<P>)
    requires Clean(task, rows) && Identity(task, row).Some?
    requires Identity(task, row).value !in Ids(task, rows)
    ensures Clean(task, rows + [row])
    ensures Ids(task, rows + [row]) == Ids(task, rows) + {Identity(task, row).value}
  {
    IdsAre(task, rows, Identity(task, row).value);
    assert (rows + [row])[..|rows|] == rows;
  }

  /** `_merge_worker_outputs` for one artifact.  It raises exactly when a row lacks its
      identity or two rows share one, and names the first such row; otherwise the result
      is the workers' rows, strictly ordered. */
  method MergeWorkerOutputs<P>(task: Option<string>, workers: seq<seq<Row<P>>>)
    returns (result: Result<seq<Row<P>>, MergeError>)
    ensures result.Success? <==> Clean(task, Concat(workers))
    ensures result.Success? ==> multiset(result.value) == multiset(Concat(workers))
    ensures result.Success? ==> StrictlyOrdered(task, result.value)
    ensures result.Success? ==> result.value == StableSort(Concat(workers), ByKey(task))
    ensures result.Failure? ==> Faulty(task, Concat(workers), result.error)
  {
    var merged: seq<Row<P>> := [];
    var observed: set<Id> := {};
    for rank := 0 to |workers|
      invariant merged == Concat(workers[..rank])
      invariant Clean(task, merged) && observed == Ids(task, merged)
    {
      var error;
      merged, observed, error := ReadWorker(task, workers[rank], merged, observed);
      assert workers[..rank + 1][..rank] == workers[..rank];
      if error.Some? {
        FaultStays(task, workers, rank + 1, error.value);
        return Failure(error.value);
      }
    }
    assert workers[..|workers|] == workers;
    SortOfClean(task, merged);
    return Success(StableSort(merged, ByKey(task)));
  }

  lemma {:induction false} FaultIsUnclean<P>(task: Option<string>, rows: seq<Row<P>>, k: nat, error: MergeError)
    requires FirstFault(task, rows, k, error)
    ensures !Clean(task, rows)
  {
    if error.Duplicate? {
      var i :| 0 <= i < k && Identity(task, rows[i]) == Some(error.id);
    }
  }

  lemma {:induction false} FaultStays<P>(task: Option<string>, workers: seq<seq<Row<P>>>, n: nat, error: MergeError)
    requires n <= |workers| && Faulty(task, Concat(workers[..n]), error)
    ensures Faulty(task, Concat(workers), error)
    ensures !Clean(task, Concat(workers))
  {
    var k: nat :| FirstFault(task, Concat(workers[..n]), k, error);
    ConcatPrefix(workers, n);
    var front, rows := Concat(workers[..n]), Concat(workers);
    assert rows[..k] == front[..k] && rows[k] == front[k];
    if error.Duplicate? {
      var i :| 0 <= i < k && Identity(task, front[i]) == Some(error.id);
      assert Identity(task, rows[i]) == Some(error.id);
    }
    assert FirstFault(task, rows, k, error);
    FaultIsUnclean(task, rows, k, error);
  }

  lemma {:induction false} ConcatPrefix<T>(workers: seq<seq<T>>, n: nat)
    requires n <= |workers|
    ensures |Concat(workers[..n])| <= |Concat(workers)|
    ensures Concat(workers)[..|Concat(workers[..n])|] == Concat(workers[..n])
  {
    if n == |workers| {
      assert workers[..n] == workers;
    } else {
      ConcatPrefix(workers[..|workers| - 1], n);
      assert workers[..|workers| - 1][..n] == workers[..n];
    }
  }

  lemma {:induction false} IdTotal(a: Id, b: Id)
    ensures IdLeq(a, b) || IdLeq(b, a)
    ensures IdLeq(a, b) && IdLeq(b, a) ==> a == b
  {
    LexTotal(a.dataset, b.dataset);
  }

  lemma {:induction false} IdTransitive(a: Id, b: Id, c: Id)
    requires IdLeq(a, b) && IdLeq(b, c)
    ensures IdLeq(a, c)
  {
    if a.dataset != b.dataset && b.dataset != c.dataset {
      LexTransitive(a.dataset, b.dataset, c.dataset);
      LexTotal(a.dataset, b.dataset);
    }
  }

  lemma {:induction false} KeyOrders<P>(task: Option<string>, s: set<Row<P>>)
    ensures Orders(ByKey(task), s)
  {
    forall a: Row<P>, b: Row<P> ensures KeyLeq(task, a, b) || KeyLeq(task, b, a) {
      if Identity(task, a).Some? && Identity(task, b).Some? {
        IdTotal(Identity(task, a).value, Identity(task, b).value);
      }
    }
    forall a: Row<P>, b: Row<P>, c: Row<P> | KeyLeq(task, a, b) && KeyLeq(task, b, c) ensures KeyLeq(task, a, c) {
      var x, y, z := Identity(task, a), Identity(task, b), Identity(task, c);
      if x.Some? && y.Some? && z.Some? && x != y && y != z {
        IdTransitive(x.value, y.value, z.value);
        IdTotal(x.value, y.value);
      }
    }
  }

  lemma {:induction false} SortOfClean<P>(task: Option<string>, rows: seq<Row<P>>)
    requires Clean(task, rows)
    ensures StrictlyOrdered(task, StableSort(rows, ByKey(task)))
  {
    var sorted := StableSort(rows, ByKey(task));
    KeyOrders(task, Elements(rows));
    SortSorted(rows, ByKey(task));
    CleanPermutation(task, rows, sorted);
    SortedIsStrict(task, sorted);
  }

  lemma {:induction false} SortedIsStrict<P>(task: Option<string>, rows: seq<Row<P>>)
    requires Clean(task, rows) && Sorted(rows, ByKey(task))
    ensures StrictlyOrdered(task, rows)
  {
    forall i, j | 0 <= i < j < |rows|
      ensures var a, b := Identity(task, rows[i]).value, Identity(task, rows[j]).value; IdLeq(a, b) && a != b
    {
      assert ByKey(task)(rows[i], rows[j]);
    }
  }

  /** A row's identity: its source index, and the data set of the artifact or, in an artifact of
      all data sets, its own. */
  lemma {:induction false} IdentityIs<P>(task: Option<string>, row: Row<P>, dataset: string, sourceIdx: int)
    ensures Identity(task, row) == Some(Id(dataset, sourceIdx)) <==>
            row.sourceIdx == Some(sourceIdx) && (if task == None then row.dataset else task) == Some(dataset)
  {
  }

  /** The order is by data set, as strings are ordered, and by source index within one. */
  lemma {:induction false} OrderedMeans<P>(task: Option<string>, rows: seq<Row<P>>, i: nat, j: nat)
    requires StrictlyOrdered(task, rows) && i < j < |rows|
    ensures var a, b := Identity(task, rows[i]), Identity(task, rows[j]);
            && a.Some? && b.Some?
            && (Precedes(a.value.dataset, b.value.dataset)
                || (a.value.dataset == b.value.dataset && a.value.sourceIdx < b.value.sourceIdx))
  {
    var a, b := Identity(task, rows[i]).value, Identity(task, rows[j]).value;
    LexIff(a.dataset, b.dataset);
  }

  /** Whether the rows can be merged does not depend on their order. */
  lemma {:induction false} CleanPermutation<P>(task: Option<string>, rows: seq<Row<P>>, other: seq<Row<P>>)
    requires Clean(task, rows) && multiset(rows) == multiset(other)
    ensures Clean(task, other)
  {
    SameElements(rows, other);
    forall i, j | 0 <= i < j < |other| ensures Identity(task, other[i]) != Identity(task, other[j]) {
      assert other[i] in rows && other[j] in rows;
      if other[i] == other[j] {
        TwiceIn(other, i, j);
        var a, b := TwoPlaces(rows, other[i]);
      } else {
        var a :| 0 <= a < |rows| && rows[a] == other[i];
        var b :| 0 <= b < |rows| && rows[b] == other[j];
        assert a < b || b < a;
      }
    }
    forall i | 0 <= i < |other| ensures Identity(task, other[i]).Some? {
      assert other[i] in rows;
    }
  }

  /** How the samples were spread over the workers, and in which order they finished,
      leaves no trace in the artifact. */
  lemma {:induction false} MergeIgnoresWorkers<P>(task: Option<string>, workers: seq<seq<Row<P>>>,
                                                  others: seq<seq<Row<P>>>)
    requires Clean(task, Concat(workers)) && multiset(Concat(workers)) == multiset(Concat(others))
    ensures Clean(task, Concat(others))
    ensures StableSort(Concat(workers), ByKey(task)) == StableSort(Concat(others), ByKey(task))
  {
    hide Concat, StableSort;
    CleanPermutation(task, Concat(workers), Concat(others));
    KeyOrders(task, Elements(Concat(workers)));
    CleanAntisymmetric(task, Concat(workers));
    SortOfPermutation(Concat(workers), Concat(others), ByKey(task));
  }

  lemma {:induction false} CleanAntisymmetric<P>(task: Option<string>, rows: seq<Row<P>>)
    requires Clean(task, rows)
    ensures Antisymmetric(ByKey(task), Elements(rows))
  {
    forall x, y | x in Elements(rows) && y in Elements(rows) && KeyLeq(task, x, y) && KeyLeq(task, y, x) ensures x == y {
      var i :| 0 <= i < |rows| && rows[i] == x;
      var j :| 0 <= j < |rows| && rows[j] == y;
      IdTotal(Identity(task, x).value, Identity(task, y).value);
      assert i == j || i < j || j < i;
    }
  }
}
