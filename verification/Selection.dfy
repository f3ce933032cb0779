/** Token buckets and the streaming selection of samples (LongBench v2). */
module Selection {
  import opened Sorting
  import opened Strings
  import opened Wrappers

  // ----- Token buckets -----

  datatype TokenBucket = TokenBucket(name: string, minTokens: int, maxTokens: int, samples: nat) {
    predicate Contains(tokens: int) {
      minTokens <= tokens <= maxTokens
    }
  }

  /** A list entry as parsed from JSON.  A field is `None` when it is missing or not
      of the wanted type. */
  datatype RawBucket =
    | NotAnObject
    | RawBucket(name: Option<string>, minTokens: Option<int>, maxTokens: Option<int>, samples: Option<int>)

  datatype BucketError =
    | NoBuckets
    | EntryNotAnObject(index: nat)
    | BadName(index: nat)
    | DuplicateName(index: nat)
    | NotPositive(index: nat)
    | EmptyRange(index: nat)
    | Overlap(earlier: nat, index: nat)

  predicate Positive(n: Option<int>) { n.Some? && n.value > 0 }

  predicate WellFormed(raw: RawBucket) {
    && raw.RawBucket?
    && raw.name.Some? && raw.name.value != ""
    && Positive(raw.minTokens) && Positive(raw.maxTokens) && Positive(raw.samples)
    && raw.minTokens.value <= raw.maxTokens.value
  }

  function ToBucket(raw: RawBucket): TokenBucket
    requires WellFormed(raw)
  {
    TokenBucket(raw.name.value, raw.minTokens.value, raw.maxTokens.value, raw.samples.value)
  }

  predicate Apart(a: TokenBucket, b: TokenBucket) {
    b.maxTokens < a.minTokens || b.minTokens > a.maxTokens
  }

  /** What parsing establishes: named, non-empty, pairwise disjoint ranges. */
  ghost predicate ProperBuckets(buckets: seq<TokenBucket>) {
    && (forall i | 0 <= i < |buckets| ::
          buckets[i].name != "" && 0 < buckets[i].minTokens <= buckets[i].maxTokens && buckets[i].samples > 0)
    && (forall i, j | 0 <= i < j < |buckets| ::
          buckets[i].name != buckets[j].name && Apart(buckets[i], buckets[j]))
  }

  /** The list is acceptable: each entry by itself, and each pair of entries. */
  ghost predicate Acceptable(raw: seq<RawBucket>) {
    && (forall i | 0 <= i < |raw| :: WellFormed(raw[i]))
    && (forall i, j | 0 <= i < j < |raw| ::
          raw[i].name != raw[j].name && Apart(ToBucket(raw[i]), ToBucket(raw[j])))
  }

  /** `parse_token_buckets` accepts exactly the non-empty lists of well-formed
      entries with distinct names and disjoint ranges, and keeps their order. */
  method ParseTokenBuckets(raw: seq<RawBucket>) returns (r: Result<seq<TokenBucket>, BucketError>)
    ensures r.Success? <==> raw != [] && Acceptable(raw)
    ensures r.Success? ==> ProperBuckets(r.value) && |r.value| == |raw|
    ensures r.Success? ==> forall i | 0 <= i < |raw| :: WellFormed(raw[i]) && r.value[i] == ToBucket(raw[i])
    ensures r.Failure? && r.error.Overlap? ==>
              var i, j := r.error.earlier, r.error.index;
              i < j < |raw| && WellFormed(raw[i]) && WellFormed(raw[j]) && !Apart(ToBucket(raw[i]), ToBucket(raw[j]))
  {
    if raw == [] {
      return Failure(NoBuckets);
    }
    hide Apart;
    var buckets := [];
    var names := {};
    var index := 0;
    while index < |raw|
      invariant 0 <= index <= |raw|
      invariant Acceptable(raw[..index])
      invariant |buckets| == index
      invariant forall i | 0 <= i < index :: WellFormed(raw[i]) && buckets[i] == ToBucket(raw[i])
      invariant forall n :: n in names <==> exists i | 0 <= i < index :: buckets[i].name == n
    {
      var item := raw[index];
      if item.NotAnObject? {
        return Failure(EntryNotAnObject(index));
      }
      if item.name.None? || item.name.value == "" {
        return Failure(BadName(index));
      }
      if item.name.value in names {
        ghost var i :| 0 <= i < index && buckets[i].name == item.name.value;
        assert raw[i].name == raw[index].name;
        return Failure(DuplicateName(index));
      }
      if !Positive(item.minTokens) || !Positive(item.maxTokens) || !Positive(item.samples) {
        return Failure(NotPositive(index));
      }
      if item.minTokens.value > item.maxTokens.value {
        return Failure(EmptyRange(index));
      }
      var bucket := TokenBucket(item.name.value, item.minTokens.value, item.maxTokens.value, item.samples.value);
      var previous := 0;
      while previous < |buckets|
        invariant 0 <= previous <= |buckets|
        invariant forall i | 0 <= i < previous :: Apart(buckets[i], bucket)
      {
        if !Apart(buckets[previous], bucket) {
          assert !Apart(ToBucket(raw[previous]), ToBucket(raw[index]));
          return Failure(Overlap(previous, index));
        }
        previous := previous + 1;
      }
      assert raw[..index + 1] == raw[..index] + [item];
      buckets := buckets + [bucket];
      names := names + {item.name.value};
      index := index + 1;
    }
    assert raw[..index] == raw;
    return Success(buckets);
  }

  // ----- What is accepted -----

  /** An object with a name that is not empty and three integers from 1 on, the first not above
      the second. */
  lemma {:induction false} WellFormedIff(raw: RawBucket)
    ensures WellFormed(raw) <==>
            exists name: string, low: int, high: int, samples: int ::
              raw == RawBucket(Some(name), Some(low), Some(high), Some(samples)) && |name| >= 1 && 1 <= low <= high && 1 <= samples
  {
    if WellFormed(raw) {
      assert raw == RawBucket(Some(raw.name.value), Some(raw.minTokens.value), Some(raw.maxTokens.value),
                              Some(raw.samples.value));
    }
  }

  /** Two buckets are apart exactly if no number of tokens lies in both. */
  lemma {:induction false} ApartIff(a: TokenBucket, b: TokenBucket)
    requires a.minTokens <= a.maxTokens && b.minTokens <= b.maxTokens
    ensures Apart(a, b) <==> forall tokens: int | a.Contains(tokens) :: !b.Contains(tokens)
    ensures forall tokens: int :: a.Contains(tokens) <==> tokens >= a.minTokens && tokens <= a.maxTokens
  {
    if !Apart(a, b) {
      var tokens := if a.minTokens >= b.minTokens then a.minTokens else b.minTokens;
      assert a.Contains(tokens) && b.Contains(tokens);
    }
  }

  /** A list is accepted exactly if its entries are well-formed, no two have the same name, and
      no number of tokens lies in the ranges of two. */
  lemma {:induction false} AcceptableIff(raw: seq<RawBucket>)
    ensures Acceptable(raw) <==>
            && (forall i | 0 <= i < |raw| :: WellFormed(raw[i]))
            && (forall i, j | 0 <= i < j < |raw| :: raw[i].name != raw[j].name && NoneShared(raw[i], raw[j]))
  {
    hide Apart, NoneShared;
    if forall i | 0 <= i < |raw| :: WellFormed(raw[i]) {
      forall i, j | 0 <= i < j < |raw| ensures Apart(ToBucket(raw[i]), ToBucket(raw[j])) <==> NoneShared(raw[i], raw[j]) {
        SharedIff(raw[i], raw[j]);
      }
    }
  }

  ghost predicate Within(raw: RawBucket, tokens: int)
    requires WellFormed(raw)
  {
    raw.minTokens.value <= tokens && tokens <= raw.maxTokens.value
  }

  ghost predicate NoneShared(a: RawBucket, b: RawBucket) {
    WellFormed(a) && WellFormed(b) && forall tokens: int | Within(a, tokens) :: !Within(b, tokens)
  }

  lemma {:induction false} SharedIff(a: RawBucket, b: RawBucket)
    requires WellFormed(a) && WellFormed(b)
    ensures Apart(ToBucket(a), ToBucket(b)) <==> NoneShared(a, b)
  {
    var x, y := ToBucket(a), ToBucket(b);
    ApartIff(x, y);
    assert forall tokens: int :: x.Contains(tokens) <==> Within(a, tokens);
    assert forall tokens: int :: y.Contains(tokens) <==> Within(b, tokens);
  }

  // ----- Candidates -----

  datatype Row = Row(id: string, body: string)

  /** What `prepare_prompt` and the seeded digest say about rows. */
  datatype Context = Context(tokens: Row -> nat, digest: string -> string, maxPromptTokens: int)

  datatype Item = Item(sourceIndex: nat, row: Row, tokens: nat, bucket: string, key: string)

  datatype Selected = Selected(item: Item, index: nat)

  /** `(selection_key, _id)` compared as Python compares tuples of strings. */
  predicate KeyLeq(aKey: string, aId: string, bKey: string, bId: string) {
    if aKey == bKey then LexLeq(aId, bId) else LexLeq(aKey, bKey)
  }

  function ItemOrder(): (Item, Item) -> bool {
    (a: Item, b: Item) => KeyLeq(a.key, a.row.id, b.key, b.row.id)
  }

  function RowOrder(c: Context): (Row, Row) -> bool {
    (a: Row, b: Row) => KeyLeq(c.digest(a.id), a.id, c.digest(b.id), b.id)
  }

  predicate Eligible(c: Context, b: TokenBucket, row: Row) {
    0 < c.tokens(row) <= c.maxPromptTokens && b.Contains(c.tokens(row))
  }

  function ItemOf(c: Context, b: TokenBucket, row: Row, sourceIndex: nat): Item {
    Item(sourceIndex, row, c.tokens(row), b.name, c.digest(row.id))
  }

  /** All rows of a bucket, in source order. */
  function Candidates(c: Context, b: TokenBucket, rows: seq<Row>): seq<Item> {
    if rows == [] then []
    else
      var n := |rows| - 1;
      Candidates(c, b, rows[..n]) + if Eligible(c, b, rows[n]) then [ItemOf(c, b, rows[n], n)] else []
  }

  /** The bucket's selection: the first `samples` of its rows in sorted order. */
  function Chosen(c: Context, b: TokenBucket, rows: seq<Row>): seq<Item>
  {
    Smallest(b.samples, StableSort(Candidates(c, b, rows), ItemOrder()))
  }

  function ChosenOfAll(c: Context, buckets: seq<TokenBucket>, rows: seq<Row>): seq<Item>
  {
    if buckets == [] then []
    else ChosenOfAll(c, buckets[..|buckets| - 1], rows) + Chosen(c, buckets[|buckets| - 1], rows)
  }

  ghost predicate Short(c: Context, b: TokenBucket, rows: seq<Row>) {
    |Candidates(c, b, rows)| < b.samples
  }

  lemma {:induction false} KeyLeqOrders(aKey: string, aId: string, bKey: string, bId: string, cKey: string, cId: string)
    ensures KeyLeq(aKey, aId, bKey, bId) || KeyLeq(bKey, bId, aKey, aId)
    ensures KeyLeq(aKey, aId, bKey, bId) && KeyLeq(bKey, bId, aKey, aId) ==> aKey == bKey && aId == bId
    ensures KeyLeq(aKey, aId, bKey, bId) && KeyLeq(bKey, bId, cKey, cId) ==> KeyLeq(aKey, aId, cKey, cId)
  {
    LexTotal(aKey, bKey);
    LexTotal(aId, bId);
    LexTotal(bKey, cKey);
    if LexLeq(aKey, bKey) && LexLeq(bKey, cKey) { LexTransitive(aKey, bKey, cKey); }
    if LexLeq(aId, bId) && LexLeq(bId, cId) { LexTransitive(aId, bId, cId); }
  }

  lemma {:induction false} ItemOrderOrders(s: set<Item>)
    ensures Orders(ItemOrder(), s)
  {
    var leq := ItemOrder();
    forall x, y | x in s && y in s ensures leq(x, y) || leq(y, x) {
      KeyLeqOrders(x.key, x.row.id, y.key, y.row.id, y.key, y.row.id);
    }
    forall x, y, z | x in s && y in s && z in s && leq(x, y) && leq(y, z) ensures leq(x, z) {
      KeyLeqOrders(x.key, x.row.id, y.key, y.row.id, z.key, z.row.id);
    }
  }

  /** One turn of the streaming loop keeps the invariant that a bucket's list is the
      selection from the rows seen so far. */
  lemma {:induction false} ChosenNext(c: Context, b: TokenBucket, rows: seq<Row>, n: nat)
    requires n < |rows| && Eligible(c, b, rows[n])
    ensures var kept := Chosen(c, b, rows[..n]) + [ItemOf(c, b, rows[n], n)];
            Chosen(c, b, rows[..n + 1]) == Smallest(b.samples, StableSort(kept, ItemOrder()))
  {
    var before := Candidates(c, b, rows[..n]);
    var item := ItemOf(c, b, rows[n], n);
    assert rows[..n + 1][..n] == rows[..n];
    assert Candidates(c, b, rows[..n + 1]) == before + [item];
    ItemOrderOrders(Elements(before) + {item});
    KeepSmallestOfAll(b.samples, before, item, ItemOrder());
  }

  lemma {:induction false} RowElsewhere(c: Context, b: TokenBucket, rows: seq<Row>, n: nat)
    requires n < |rows| && !Eligible(c, b, rows[n])
    ensures Candidates(c, b, rows[..n + 1]) == Candidates(c, b, rows[..n])
  {
    assert rows[..n + 1][..n] == rows[..n];
  }

  lemma {:induction false} RowHere(c: Context, b: TokenBucket, rows: seq<Row>, n: nat)
    requires n < |rows| && Eligible(c, b, rows[n])
    ensures |Candidates(c, b, rows[..n + 1])| == |Candidates(c, b, rows[..n])| + 1
  {
    assert rows[..n + 1][..n] == rows[..n];
  }

  /** Disjoint buckets: a row is eligible for at most one. */
  lemma {:induction false} AtMostOneBucket(c: Context, buckets: seq<TokenBucket>, row: Row, i: nat, j: nat)
    requires ProperBuckets(buckets) && i < |buckets| && j < |buckets|
    requires Eligible(c, buckets[i], row) && Eligible(c, buckets[j], row)
    ensures i == j
  {
    assert i < j ==> Apart(buckets[i], buckets[j]);
    assert j < i ==> Apart(buckets[j], buckets[i]);
  }

  // ----- The streaming selection -----

  /** `matching[0]`: the first bucket that contains the count. */
  function FirstMatch(buckets: seq<TokenBucket>, tokens: int, from: nat): (r: Option<nat>)
    requires from <= |buckets|
    ensures r.Some? ==> from <= r.value < |buckets| && buckets[r.value].Contains(tokens)
    ensures r.None? ==> forall i | from <= i < |buckets| :: !buckets[i].Contains(tokens)
    decreases |buckets| - from
  {
    if from == |buckets| then None
    else if buckets[from].Contains(tokens) then Some(from)
    else FirstMatch(buckets, tokens, from + 1)
  }

  /** One bucket's list and count are those of the rows seen. */
  ghost predicate BucketStreamed(c: Context, b: TokenBucket, seen: seq<Row>,
                                 candidates: map<string, seq<Item>>, counts: map<string, nat>) {
    && b.name in candidates && b.name in counts
    && candidates[b.name] == Chosen(c, b, seen)
    && counts[b.name] == |Candidates(c, b, seen)|
  }

  ghost predicate Streamed(c: Context, buckets: seq<TokenBucket>, seen: seq<Row>,
                           candidates: map<string, seq<Item>>, counts: map<string, nat>) {
    forall i | 0 <= i < |buckets| :: BucketStreamed(c, buckets[i], seen, candidates, counts)
  }

  /** A row passes by every bucket it is not eligible for. */
  lemma {:induction false} StreamedElsewhere(c: Context, b: TokenBucket, rows: seq<Row>, n: nat,
                          candidates: map<string, seq<Item>>, counts: map<string, nat>,
                          candidates': map<string, seq<Item>>, counts': map<string, nat>)
    requires n < |rows| && !Eligible(c, b, rows[n])
    requires BucketStreamed(c, b, rows[..n], candidates, counts)
    requires b.name in candidates' && candidates'[b.name] == candidates[b.name]
    requires b.name in counts' && counts'[b.name] == counts[b.name]
    ensures BucketStreamed(c, b, rows[..n + 1], candidates', counts')
  {
    RowElsewhere(c, b, rows, n);
  }

  /** Append, sort, and drop the last item of an overfull bucket. */
  method AddCandidate(list: seq<Item>, item: Item, samples: nat) returns (list': seq<Item>)
    requires samples > 0 && |list| <= samples
    ensures list' == Smallest(samples, StableSort(list + [item], ItemOrder()))
  {
    list' := StableSort(list + [item], ItemOrder());
    if |list'| > samples {
      list' := list'[..|list'| - 1];
    }
  }

  /** The bucket that takes the row. */
  lemma {:induction false} StreamedHere(c: Context, b: TokenBucket, rows: seq<Row>, n: nat,
                          candidates: map<string, seq<Item>>, counts: map<string, nat>, list: seq<Item>)
    requires n < |rows| && Eligible(c, b, rows[n])
    requires BucketStreamed(c, b, rows[..n], candidates, counts)
    requires list == Smallest(b.samples, StableSort(candidates[b.name] + [ItemOf(c, b, rows[n], n)], ItemOrder()))
    ensures BucketStreamed(c, b, rows[..n + 1], candidates[b.name := list], counts[b.name := counts[b.name] + 1])
  {
    hide Smallest, StableSort, Candidates, ItemOf, Chosen, ItemOrder;
    ChosenNext(c, b, rows, n);
    RowHere(c, b, rows, n);
  }

  lemma {:induction false} StreamedByNone(c: Context, buckets: seq<TokenBucket>, rows: seq<Row>, n: nat,
                          candidates: map<string, seq<Item>>, counts: map<string, nat>)
    requires n < |rows| && Streamed(c, buckets, rows[..n], candidates, counts)
    requires forall i | 0 <= i < |buckets| :: !Eligible(c, buckets[i], rows[n])
    ensures Streamed(c, buckets, rows[..n + 1], candidates, counts)
  {
    hide BucketStreamed, Eligible;
    forall i | 0 <= i < |buckets|
      ensures BucketStreamed(c, buckets[i], rows[..n + 1], candidates, counts)
    {
      NamedIn(c, buckets[i], rows[..n], candidates, counts);
      StreamedElsewhere(c, buckets[i], rows, n, candidates, counts, candidates, counts);
    }
  }

  lemma {:induction false} NamedIn(c: Context, b: TokenBucket, seen: seq<Row>,
                          candidates: map<string, seq<Item>>, counts: map<string, nat>)
    requires BucketStreamed(c, b, seen, candidates, counts)
    ensures b.name in candidates && b.name in counts
  {
  }

  lemma {:induction false} StreamedByOne(c: Context, buckets: seq<TokenBucket>, rows: seq<Row>, n: nat, k: nat,
                          candidates: map<string, seq<Item>>, counts: map<string, nat>, list: seq<Item>, count: nat)
    requires ProperBuckets(buckets) && n < |rows| && k < |buckets| && Eligible(c, buckets[k], rows[n])
    requires Streamed(c, buckets, rows[..n], candidates, counts)
    requires BucketStreamed(c, buckets[k], rows[..n + 1],
                            candidates[buckets[k].name := list], counts[buckets[k].name := count])
    ensures Streamed(c, buckets, rows[..n + 1], candidates[buckets[k].name := list], counts[buckets[k].name := count])
  {
    hide BucketStreamed, Eligible;
    forall i | 0 <= i < |buckets|
      ensures BucketStreamed(c, buckets[i], rows[..n + 1],
                             candidates[buckets[k].name := list], counts[buckets[k].name := count])
    {
      if i != k {
        NamedIn(c, buckets[i], rows[..n], candidates, counts);
        if Eligible(c, buckets[i], rows[n]) {
          AtMostOneBucket(c, buckets, rows[n], i, k);
        }
        NamesDiffer(buckets, i, k);
        StreamedElsewhere(c, buckets[i], rows, n, candidates, counts,
                          candidates[buckets[k].name := list], counts[buckets[k].name := count]);
      }
    }
  }

  lemma {:induction false} NamesDiffer(buckets: seq<TokenBucket>, i: nat, k: nat)
    requires ProperBuckets(buckets) && i < |buckets| && k < |buckets| && i != k
    ensures buckets[i].name != buckets[k].name
  {
    assert i < k ==> Apart(buckets[i], buckets[k]);
    assert k < i ==> Apart(buckets[k], buckets[i]);
  }

  /** One turn of the loop over the rows. */
  method TakeRow(c: Context, buckets: seq<TokenBucket>, rows: seq<Row>, sourceIndex: nat,
                 candidates: map<string, seq<Item>>, counts: map<string, nat>)
    returns (candidates': map<string, seq<Item>>, counts': map<string, nat>)
    requires ProperBuckets(buckets) && sourceIndex < |rows|
    requires Streamed(c, buckets, rows[..sourceIndex], candidates, counts)
    ensures Streamed(c, buckets, rows[..sourceIndex + 1], candidates', counts')
  {
    hide Smallest, StableSort, Candidates, Chosen, ItemOf, ItemOrder;
    var row := rows[sourceIndex];
    candidates', counts' := candidates, counts;
    var tokens := c.tokens(row);
    var matching := if tokens <= 0 || tokens > c.maxPromptTokens then None else FirstMatch(buckets, tokens, 0);
    if matching.Some? {
      var bucket := buckets[matching.value];
      assert BucketStreamed(c, bucket, rows[..sourceIndex], candidates, counts);
      ProperSamples(buckets, matching.value, c, rows[..sourceIndex]);
      var list := AddCandidate(candidates[bucket.name], ItemOf(c, bucket, row, sourceIndex), bucket.samples);
      candidates' := candidates[bucket.name := list];
      counts' := counts[bucket.name := counts[bucket.name] + 1];
      StreamedHere(c, bucket, rows, sourceIndex, candidates, counts, list);
      StreamedByOne(c, buckets, rows, sourceIndex, matching.value, candidates, counts, list, counts[bucket.name] + 1);
    } else {
      StreamedByNone(c, buckets, rows, sourceIndex, candidates, counts);
    }
  }

  lemma {:induction false} ProperSamples(buckets: seq<TokenBucket>, i: nat, c: Context, seen: seq<Row>)
    requires ProperBuckets(buckets) && i < |buckets|
    ensures buckets[i].samples > 0 && |Chosen(c, buckets[i], seen)| <= buckets[i].samples
  {
  }

  /** Every bucket starts out empty. */
  method StartBuckets(c: Context, buckets: seq<TokenBucket>)
    returns (candidates: map<string, seq<Item>>, counts: map<string, nat>)
    requires ProperBuckets(buckets)
    ensures Streamed(c, buckets, [], candidates, counts)
  {
    candidates, counts := map[], map[];
    var k := 0;
    while k < |buckets|
      invariant 0 <= k <= |buckets|
      invariant forall i | 0 <= i < k :: buckets[i].name in candidates && candidates[buckets[i].name] == []
      invariant forall i | 0 <= i < k :: buckets[i].name in counts && counts[buckets[i].name] == 0
    {
      candidates := candidates[buckets[k].name := []];
      counts := counts[buckets[k].name := 0];
      k := k + 1;
    }
  }

  /** The loop over the rows. */
  method StreamRows(c: Context, buckets: seq<TokenBucket>, rows: seq<Row>)
    returns (candidates: map<string, seq<Item>>, counts: map<string, nat>)
    requires ProperBuckets(buckets)
    ensures Streamed(c, buckets, rows, candidates, counts)
  {
    candidates, counts := StartBuckets(c, buckets);
    var sourceIndex := 0;
    assert rows[..0] == [];
    while sourceIndex < |rows|
      invariant 0 <= sourceIndex <= |rows|
      invariant Streamed(c, buckets, rows[..sourceIndex], candidates, counts)
    {
      candidates, counts := TakeRow(c, buckets, rows, sourceIndex, candidates, counts);
      sourceIndex := sourceIndex + 1;
    }
    assert rows[..sourceIndex] == rows;
  }

  lemma {:induction false} ChosenOfNone(c: Context, none: seq<TokenBucket>, rows: seq<Row>)
    requires none == []
    ensures ChosenOfAll(c, none, rows) == []
  {
  }

  lemma {:induction false} ReadBucket(c: Context, buckets: seq<TokenBucket>, k: nat, rows: seq<Row>,
                   candidates: map<string, seq<Item>>, counts: map<string, nat>)
    requires k < |buckets| && Streamed(c, buckets, rows, candidates, counts)
    ensures var b := buckets[k];
            && b.name in candidates && b.name in counts
            && candidates[b.name] == Chosen(c, b, rows)
            && (counts[b.name] < b.samples <==> Short(c, b, rows))
  {
    assert BucketStreamed(c, buckets[k], rows, candidates, counts);
  }

  lemma {:induction false} ChosenOfNext(c: Context, buckets: seq<TokenBucket>, rows: seq<Row>, k: nat)
    requires k < |buckets|
    ensures ChosenOfAll(c, buckets[..k + 1], rows) ==
            ChosenOfAll(c, buckets[..k], rows) + Chosen(c, buckets[k], rows)
  {
    assert buckets[..k + 1][..k] == buckets[..k];
  }

  /** The loop over the buckets, up to the first short one. */
  method Gather(c: Context, buckets: seq<TokenBucket>, rows: seq<Row>,
                candidates: map<string, seq<Item>>, counts: map<string, nat>)
    returns (items: seq<Item>, short: Option<nat>)
    requires Streamed(c, buckets, rows, candidates, counts)
    ensures short.None? ==> items == ChosenOfAll(c, buckets, rows)
    ensures short.None? <==> forall i | 0 <= i < |buckets| :: !Short(c, buckets[i], rows)
    ensures short.Some? ==> short.value < |buckets| && Short(c, buckets[short.value], rows)
    ensures short.Some? ==> forall j | 0 <= j < short.value :: !Short(c, buckets[j], rows)
  {
    hide *;
    items := [];
    var k := 0;
    ChosenOfNone(c, buckets[..0], rows);
    while k < |buckets|
      invariant 0 <= k <= |buckets|
      invariant forall j | 0 <= j < k :: !Short(c, buckets[j], rows)
      invariant items == ChosenOfAll(c, buckets[..k], rows)
    {
      ReadBucket(c, buckets, k, rows, candidates, counts);
      if counts[buckets[k].name] < buckets[k].samples {
        return items, Some(k);
      }
      ChosenOfNext(c, buckets, rows, k);
      items := items + candidates[buckets[k].name];
      k := k + 1;
    }
    assert buckets[..k] == buckets;
    short := None;
  }

  /** `select_samples`: raises for the first bucket that is short, and otherwise
      returns, bucket by bucket, the first `samples` of all its rows in sorted order. */
  method SelectSamples(c: Context, buckets: seq<TokenBucket>, rows: seq<Row>)
    returns (r: Result<seq<Selected>, TokenBucket>)
    requires ProperBuckets(buckets)
    ensures r.Success? <==> forall i | 0 <= i < |buckets| :: !Short(c, buckets[i], rows)
    ensures r.Success? ==> |r.value| == |ChosenOfAll(c, buckets, rows)|
    ensures r.Success? ==> forall i | 0 <= i < |r.value| :: r.value[i] == Selected(ChosenOfAll(c, buckets, rows)[i], i)
    ensures r.Failure? ==> exists k | 0 <= k < |buckets| ::
              && r.error == buckets[k]
              && Short(c, buckets[k], rows)
              && forall j | 0 <= j < k :: !Short(c, buckets[j], rows)
  {
    var candidates, counts := StreamRows(c, buckets, rows);
    var items, short := Gather(c, buckets, rows, candidates, counts);
    if short.Some? {
      return Failure(buckets[short.value]);
    }
    return Success(seq(|items|, i requires 0 <= i < |items| => Selected(items[i], i)));
  }

  // ----- The selection does not depend on the order of the rows -----

  function RowsOf(items: seq<Item>): seq<Row> {
    seq(|items|, i requires 0 <= i < |items| => items[i].row)
  }

  function EligibleRows(c: Context, b: TokenBucket, rows: seq<Row>): seq<Row> {
    if rows == [] then []
    else
      var n := |rows| - 1;
      EligibleRows(c, b, rows[..n]) + if Eligible(c, b, rows[n]) then [rows[n]] else []
  }

  lemma {:induction false} CandidateRows(c: Context, b: TokenBucket, rows: seq<Row>)
    ensures RowsOf(Candidates(c, b, rows)) == EligibleRows(c, b, rows)
    ensures forall x | x in Candidates(c, b, rows) :: x.key == c.digest(x.row.id)
  {
    if rows != [] {
      CandidateRows(c, b, rows[..|rows| - 1]);
    }
  }

  lemma {:induction false} EligibleRowsLast(c: Context, b: TokenBucket, rows: seq<Row>)
    requires rows != []
    ensures var n := |rows| - 1;
            multiset(EligibleRows(c, b, rows)) ==
            multiset(EligibleRows(c, b, rows[..n])) +
            if Eligible(c, b, rows[n]) then multiset{rows[n]} else multiset{}
  {
  }

  lemma {:induction false} EligibleCounts(c: Context, b: TokenBucket, rows: seq<Row>, row: Row)
    ensures multiset(EligibleRows(c, b, rows))[row] == if Eligible(c, b, row) then multiset(rows)[row] else 0
  {
    if rows != [] {
      hide Eligible;
      var n := |rows| - 1;
      EligibleCounts(c, b, rows[..n], row);
      assert multiset(rows) == multiset(rows[..n]) + multiset{rows[n]} by {
        assert rows == rows[..n] + [rows[n]];
      }
      EligibleRowsLast(c, b, rows);
    }
  }

  lemma {:induction false} EligibleRowsOfPermutation(c: Context, b: TokenBucket, rows: seq<Row>, other: seq<Row>)
    requires multiset(rows) == multiset(other)
    ensures multiset(EligibleRows(c, b, rows)) == multiset(EligibleRows(c, b, other))
  {
    forall row
      ensures multiset(EligibleRows(c, b, rows))[row] == multiset(EligibleRows(c, b, other))[row]
    {
      EligibleCounts(c, b, rows, row);
      EligibleCounts(c, b, other, row);
    }
  }

  lemma {:induction false} RowsOfAppended(items: seq<Item>, x: Item)
    ensures RowsOf(items + [x]) == RowsOf(items) + [x.row]
  {
  }

  /** Sorting items by key is sorting their rows by digest. */
  lemma {:induction false} InsertRows(c: Context, items: seq<Item>, x: Item)
    requires forall y | y in items + [x] :: y.key == c.digest(y.row.id)
    ensures RowsOf(Insert(items, x, ItemOrder())) == Insert(RowsOf(items), x.row, RowOrder(c))
  {
    if items == [] {
      return;
    }
    var front, last := items[..|items| - 1], items[|items| - 1];
    assert last in items + [x] && x in items + [x];
    assert items == front + [last];
    RowsOfAppended(front, last);
    if ItemOrder()(last, x) {
      RowsOfAppended(items, x);
    } else {
      forall y | y in front + [x] ensures y in items + [x] {}
      InsertRows(c, front, x);
      RowsOfAppended(Insert(front, x, ItemOrder()), last);
    }
  }

  lemma {:induction false} SortRows(c: Context, items: seq<Item>)
    requires forall y | y in items :: y.key == c.digest(y.row.id)
    ensures RowsOf(StableSort(items, ItemOrder())) == StableSort(RowsOf(items), RowOrder(c))
  {
    if items != [] {
      var front := items[..|items| - 1];
      assert RowsOf(front) == RowsOf(items)[..|items| - 1];
      SortRows(c, front);
      SameElements(front, StableSort(front, ItemOrder()));
      InsertRows(c, StableSort(front, ItemOrder()), items[|items| - 1]);
    }
  }

  ghost predicate DistinctIds(rows: seq<Row>) {
    forall i, j | 0 <= i < j < |rows| :: rows[i].id != rows[j].id
  }

  lemma {:induction false} RowOrderOrders(c: Context, s: set<Row>)
    requires forall x, y | x in s && y in s && x.id == y.id :: x == y
    ensures Orders(RowOrder(c), s) && Antisymmetric(RowOrder(c), s)
  {
    var leq := RowOrder(c);
    forall x, y, z
      ensures leq(x, y) || leq(y, x)
      ensures leq(x, y) && leq(y, x) ==> x.id == y.id
      ensures leq(x, y) && leq(y, z) ==> leq(x, z)
    {
      KeyLeqOrders(c.digest(x.id), x.id, c.digest(y.id), y.id, c.digest(z.id), z.id);
    }
  }

  lemma {:induction false} EligibleAreRows(c: Context, b: TokenBucket, rows: seq<Row>)
    ensures forall x | x in EligibleRows(c, b, rows) :: x in rows
  {
    if rows != [] {
      EligibleAreRows(c, b, rows[..|rows| - 1]);
    }
  }

  lemma {:induction false} SortedRowsOfPermutation(c: Context, b: TokenBucket, rows: seq<Row>, other: seq<Row>)
    requires DistinctIds(rows) && multiset(rows) == multiset(other)
    ensures StableSort(EligibleRows(c, b, rows), RowOrder(c)) == StableSort(EligibleRows(c, b, other), RowOrder(c))
  {
    EligibleRowsOfPermutation(c, b, rows, other);
    EligibleAreRows(c, b, rows);
    RowOrderOrders(c, Elements(EligibleRows(c, b, rows)));
    SortOfPermutation(EligibleRows(c, b, rows), EligibleRows(c, b, other), RowOrder(c));
  }

  lemma {:induction false} RowsOfSmallest(k: nat, items: seq<Item>)
    ensures RowsOf(Smallest(k, items)) == Smallest(k, RowsOf(items))
  {
  }

  /** The selected rows of a bucket, without the bookkeeping of items. */
  lemma {:induction false} ChosenRows(c: Context, b: TokenBucket, rows: seq<Row>)
    ensures RowsOf(Chosen(c, b, rows)) == Smallest(b.samples, StableSort(EligibleRows(c, b, rows), RowOrder(c)))
  {
    CandidateRows(c, b, rows);
    SortRows(c, Candidates(c, b, rows));
    RowsOfSmallest(b.samples, StableSort(Candidates(c, b, rows), ItemOrder()));
  }

  /** For rows with distinct ids, shuffling the data set leaves every bucket's
      selected rows, and their order, as they were. */
  lemma {:induction false} SelectionIgnoresRowOrder(c: Context, b: TokenBucket, rows: seq<Row>, other: seq<Row>)
    requires DistinctIds(rows) && multiset(rows) == multiset(other)
    ensures RowsOf(Chosen(c, b, rows)) == RowsOf(Chosen(c, b, other))
    ensures Short(c, b, rows) <==> Short(c, b, other)
  {
    ChosenRows(c, b, rows);
    ChosenRows(c, b, other);
    SortedRowsOfPermutation(c, b, rows, other);
    CandidateRows(c, b, rows);
    CandidateRows(c, b, other);
    assert |RowsOf(Candidates(c, b, rows))| == |Candidates(c, b, rows)|;
    assert |RowsOf(Candidates(c, b, other))| == |Candidates(c, b, other)|;
    assert |EligibleRows(c, b, rows)| == |EligibleRows(c, b, other)|;
  }
}
