/** What a bucket's selection is, said of the rows: as many as wanted of those in range, none
    of them twice, in order, and none left out that comes before one taken. */
module SelectionMeaning {
  import opened Selection
  import opened Sequences
  import opened Sorting
  import opened Strings

  ghost predicate InRange(c: Context, b: TokenBucket, row: Row) {
    0 < c.tokens(row) <= c.maxPromptTokens && b.minTokens <= c.tokens(row) <= b.maxTokens
  }

  ghost function RowsInRange(c: Context, b: TokenBucket, rows: seq<Row>): set<nat> {
    set n: nat | n < |rows| && InRange(c, b, rows[n])
  }

  /** The item says what there is to say of its row. */
  ghost predicate Describes(c: Context, b: TokenBucket, rows: seq<Row>, x: Item) {
    && x.sourceIndex < |rows| && x.row == rows[x.sourceIndex] && InRange(c, b, x.row)
    && x.tokens == c.tokens(x.row) && x.bucket == b.name && x.key == c.digest(x.row.id)
  }

  /** By digest, and by id where digests agree. */
  ghost predicate ComesFirst(aKey: string, aId: string, bKey: string, bId: string) {
    Precedes(aKey, bKey) || (aKey == bKey && Precedes(aId, bId))
  }

  lemma {:induction false} KeyLeqMeans(aKey: string, aId: string, bKey: string, bId: string)
    requires KeyLeq(aKey, aId, bKey, bId)
    ensures !ComesFirst(bKey, bId, aKey, aId)
  {
    if aKey == bKey {
      LexOrder(aId, bId);
      LexIff(aKey, aKey);
      LexOrder(aKey, aKey) by {
        LexTotal(aKey, aKey);
      }
    } else {
      LexOrder(aKey, bKey);
    }
  }

  // ----- All rows in range -----

  lemma {:induction false} CandidatesDescribe(c: Context, b: TokenBucket, rows: seq<Row>)
    ensures forall x | x in Candidates(c, b, rows) :: Describes(c, b, rows, x)
    ensures forall n | n in RowsInRange(c, b, rows) :: ItemOf(c, b, rows[n], n) in Candidates(c, b, rows)
    ensures forall i, j | 0 <= i < j < |Candidates(c, b, rows)| ::
              Candidates(c, b, rows)[i].sourceIndex < Candidates(c, b, rows)[j].sourceIndex
    ensures |Candidates(c, b, rows)| == |RowsInRange(c, b, rows)|
  {
    if rows != [] {
      hide InRange, Eligible, Candidates, Describes;
      var n := |rows| - 1;
      CandidatesDescribe(c, b, rows[..n]);
      OneMoreRow(c, b, rows);
      LastCandidate(c, b, rows);
      EarlierRows(c, b, rows);
      var front := Candidates(c, b, rows[..n]);
      forall i | 0 <= i < |front| ensures front[i].sourceIndex < n {
        assert front[i] in front;
      }
    } else {
      NoCandidates(c, b);
    }
  }

  lemma {:induction false} NoCandidates(c: Context, b: TokenBucket)
    ensures Candidates(c, b, []) == [] && RowsInRange(c, b, []) == {}
  {
  }

  lemma {:induction false} LastCandidate(c: Context, b: TokenBucket, rows: seq<Row>)
    requires rows != []
    ensures var n := |rows| - 1;
            && Candidates(c, b, rows) ==
               Candidates(c, b, rows[..n]) + (if InRange(c, b, rows[n]) then [ItemOf(c, b, rows[n], n)] else [])
            && (InRange(c, b, rows[n]) ==> Describes(c, b, rows, ItemOf(c, b, rows[n], n)))
  {
  }

  /** What holds of the rows but the last. */
  lemma {:induction false} EarlierRows(c: Context, b: TokenBucket, rows: seq<Row>)
    requires rows != []
    ensures forall x | Describes(c, b, rows[..|rows| - 1], x) :: Describes(c, b, rows, x) && x.sourceIndex < |rows| - 1
    ensures forall m: nat | m < |rows| - 1 ::
              rows[..|rows| - 1][m] == rows[m] && (m in RowsInRange(c, b, rows) <==> m in RowsInRange(c, b, rows[..|rows| - 1]))
    ensures forall m: nat | m in RowsInRange(c, b, rows) :: InRange(c, b, rows[m])
  {
    hide InRange;
  }

  lemma {:induction false} OneMoreRow(c: Context, b: TokenBucket, rows: seq<Row>)
    requires rows != []
    ensures var n := |rows| - 1;
            && Eligible(c, b, rows[n]) == InRange(c, b, rows[n])
            && |RowsInRange(c, b, rows)| == |RowsInRange(c, b, rows[..n])| + if InRange(c, b, rows[n]) then 1 else 0
  {
    var n: nat := |rows| - 1;
    var front, all := RowsInRange(c, b, rows[..n]), RowsInRange(c, b, rows);
    assert all == front + if InRange(c, b, rows[n]) then {n} else {};
    assert n !in front;
  }

  /** A bucket is short exactly if fewer rows are in its range than it wants. */
  lemma {:induction false} ShortIff(c: Context, b: TokenBucket, rows: seq<Row>)
    ensures Short(c, b, rows) <==> |RowsInRange(c, b, rows)| < b.samples
  {
    CandidatesDescribe(c, b, rows);
  }

  // ----- The selection -----

  lemma {:induction false} SortedCandidates(c: Context, b: TokenBucket, rows: seq<Row>)
    ensures var sorted := StableSort(Candidates(c, b, rows), ItemOrder());
            && |sorted| == |RowsInRange(c, b, rows)|
            && (forall x | x in sorted :: Describes(c, b, rows, x))
            && (forall n | n in RowsInRange(c, b, rows) :: ItemOf(c, b, rows[n], n) in sorted)
            && (forall i, j | 0 <= i < j < |sorted| :: sorted[i].sourceIndex != sorted[j].sourceIndex)
            && (forall i, j | 0 <= i < j < |sorted| ::
                  !ComesFirst(sorted[j].key, sorted[j].row.id, sorted[i].key, sorted[i].row.id))
  {
    hide Candidates, InRange, ComesFirst, KeyLeq, StableSort;
    var xs := Candidates(c, b, rows);
    var sorted := StableSort(xs, ItemOrder());
    CandidatesDescribe(c, b, rows);
    SameElements(xs, sorted);
    ItemOrderOrders(Elements(xs));
    SortSorted(xs, ItemOrder());
    forall i, j | 0 <= i < j < |sorted| ensures sorted[i].sourceIndex != sorted[j].sourceIndex {
      DistinctItems(c, b, rows, xs, sorted, i, j);
    }
    forall i, j | 0 <= i < j < |sorted|
      ensures !ComesFirst(sorted[j].key, sorted[j].row.id, sorted[i].key, sorted[i].row.id)
    {
      assert ItemOrder()(sorted[i], sorted[j]);
      KeyLeqMeans(sorted[i].key, sorted[i].row.id, sorted[j].key, sorted[j].row.id);
    }
  }

  lemma {:induction false} DistinctItems(c: Context, b: TokenBucket, rows: seq<Row>, xs: seq<Item>, sorted: seq<Item>,
                                         i: nat, j: nat)
    requires multiset(xs) == multiset(sorted) && i < j < |sorted|
    requires forall x | x in sorted :: Describes(c, b, rows, x)
    requires forall m, n | 0 <= m < n < |xs| :: xs[m].sourceIndex < xs[n].sourceIndex
    ensures sorted[i].sourceIndex != sorted[j].sourceIndex
  {
    var x, y := sorted[i], sorted[j];
    assert Describes(c, b, rows, x) && Describes(c, b, rows, y);
    OnceInDistinct(xs, x);
    if x == y {
      TwiceIn(sorted, i, j);
    }
  }

  /** The selection of a bucket: as many as it wants, or all rows in range if these are fewer;
      each row once and described as it is; in order of digest and id; and no row in range
      that is left out comes before one that is taken. */
  lemma {:induction false} ChosenMeans(c: Context, b: TokenBucket, rows: seq<Row>)
    ensures var chosen, inRange := Chosen(c, b, rows), RowsInRange(c, b, rows);
            && |chosen| == (if |inRange| <= b.samples then |inRange| else b.samples)
            && (forall x | x in chosen :: Describes(c, b, rows, x))
            && (forall i, j | 0 <= i < j < |chosen| :: chosen[i].sourceIndex != chosen[j].sourceIndex)
            && (forall i, j | 0 <= i < j < |chosen| ::
                  !ComesFirst(chosen[j].key, chosen[j].row.id, chosen[i].key, chosen[i].row.id))
            && (forall x, n | x in chosen && n in inRange && ItemOf(c, b, rows[n], n) !in chosen ::
                  !ComesFirst(c.digest(rows[n].id), rows[n].id, x.key, x.row.id))
  {
    hide Candidates, InRange, ComesFirst, StableSort, Describes;
    SortedCandidates(c, b, rows);
    var sorted, chosen := StableSort(Candidates(c, b, rows), ItemOrder()), Chosen(c, b, rows);
    assert forall x | x in chosen :: x in sorted;
    forall x, n | x in chosen && n in RowsInRange(c, b, rows) && ItemOf(c, b, rows[n], n) !in chosen
      ensures !ComesFirst(c.digest(rows[n].id), rows[n].id, x.key, x.row.id)
    {
      var i :| 0 <= i < |chosen| && chosen[i] == x;
      var j :| 0 <= j < |sorted| && sorted[j] == ItemOf(c, b, rows[n], n);
      LeftOut(sorted, |chosen|, j);
    }
  }

  lemma {:induction false} LeftOut<T>(sorted: seq<T>, k: nat, j: nat)
    requires k <= |sorted| && j < |sorted| && sorted[j] !in sorted[..k]
    ensures j >= k
  {
    assert forall i | 0 <= i < k :: sorted[..k][i] == sorted[i] && sorted[i] in sorted[..k];
  }
}
