/** The lifecycle of resident chains on the server, as functions on its state.

    A chain has one writer at a time.  Its record survives between turns with a digest of
    the tokens processed so far; a later request may resume it only with that prefix.
    Idle chains are evicted in order of last access when a request needs their space. */
module ChainIndex {
  import opened Sequences
  import opened Strings
  import opened Wrappers

  datatype State = Active | Idle

  /** A record, filed under its chain id.  `D` is the type of digests. */
  datatype Record<D> = Record(
    seqId: int,
    fingerprint: D,
    state: State,
    processed: nat,
    digest: Option<D>,            // of the first `processed` tokens; none before the first turn ends
    tokens: seq<int>,             // the logical history, kept on rank 0 only
    lastInput: nat,
    lastAccess: nat,
    slots: seq<nat>,              // resident slots by layer
    rows: nat,
    reservedSlots: seq<nat>,
    reservedRows: nat)

  datatype Stats = Stats(created: nat, resumed: nat, finished: nat, evicted: nat, invalidated: nat,
                         mismatch: nat, busy: nat)

  datatype Index<D> = Index(
    records: map<string, Record<D>>,
    owners: map<int, string>,     // seq_id_to_chain_id
    tombstones: seq<string>,      // oldest first
    clock: nat,
    history: int,                 // _token_history_tokens
    stats: Stats)

  datatype Limits = Limits(tombstones: nat, history: Option<nat>)

  datatype ChainError =
    | NotFound
    | Gone
    | Busy
    | OtherFingerprint
    | OtherOwner
    | PrefixMismatch
    | NoCapacity
    | BadCount

  datatype Plan = Plan(chainId: string, seqId: int, resumed: bool, reused: nat, inputCount: nat,
                       victims: seq<string>, reservedSlots: seq<nat>, reservedRows: nat)

  datatype Request<D> = Request(chainId: string, seqId: int, fingerprint: D, needSlots: seq<int>, needRows: int,
                                reserveSlots: seq<int>, reserveRows: int)

  /** What a request shows of its input: all tokens on rank 0, and on the other ranks their
      number with the digest of the prefix to be reused. */
  datatype Evidence<D> = Tokens(tokens: seq<int>) | Digest(count: nat, prefix: D)

  function Empty<D>(): Index<D> {
    Index(map[], map[], [], 0, 0, Stats(0, 0, 0, 0, 0, 0, 0))
  }

  function AtLeastZero(n: int): nat { if n > 0 then n else 0 }

  // ----- Tombstones -----

  function Without(ids: seq<string>, id: string): (r: seq<string>)
    ensures |r| <= |ids|
  {
    if ids == [] then []
    else
      var n := |ids| - 1;
      Without(ids[..n], id) + if ids[n] == id then [] else [ids[n]]
  }

  function LastOf(ids: seq<string>, k: nat): seq<string> {
    if |ids| <= k then ids else ids[|ids| - k..]
  }

  /** `_add_tombstone`, on the list of tombstones. */
  function Buried(ids: seq<string>, id: string, limit: nat): seq<string> {
    LastOf(Without(ids, id) + [id], limit)
  }

  // ----- Leaving the index -----

  function Lookup<D>(s: Index<D>, id: string): Result<Record<D>, ChainError> {
    if id in s.records then Success(s.records[id])
    else if id in s.tombstones then Failure(Gone)
    else Failure(NotFound)
  }

  function Drop<D>(l: Limits, s: Index<D>, id: string): Index<D>
    requires id in s.records
  {
    s.(records := s.records - {id},
       owners := s.owners - {s.records[id].seqId},
       tombstones := Buried(s.tombstones, id, l.tombstones),
       clock := s.clock + 1,
       history := s.history - |s.records[id].tokens|)
  }

  function Invalidate<D>(l: Limits, s: Index<D>, id: string): (Index<D>, Result<Record<D>, ChainError>) {
    match Lookup(s, id)
    case Failure(e) => (s, Failure(e))
    case Success(r) =>
      var t := Drop(l, s, id);
      (t.(stats := t.stats.(invalidated := t.stats.invalidated + 1)), Success(r.(tokens := [])))
  }

  function Evict<D>(l: Limits, s: Index<D>, id: string): (Index<D>, Result<Record<D>, ChainError>) {
    match Lookup(s, id)
    case Failure(e) => (s, Failure(e))
    case Success(r) =>
      if r.state.Active? then (s, Failure(Busy))
      else
        var t := Drop(l, s, id);
        (t.(stats := t.stats.(evicted := t.stats.evicted + 1)), Success(r.(tokens := [])))
  }

  // ----- Planning an admission -----

  function InputCount<D>(e: Evidence<D>): nat {
    match e
    case Tokens(tokens) => |tokens|
    case Digest(count, _) => count
  }

  /** The input begins with what the record has processed, as far as the digest tells. */
  predicate PrefixMatches<D(==)>(hash: seq<int> -> D, r: Record<D>, e: Evidence<D>) {
    && InputCount(e) >= r.processed
    && r.digest == Some(if e.Tokens? then hash(e.tokens[..r.processed]) else e.prefix)
  }

  function CheckResume<D(==)>(hash: seq<int> -> D, r: Record<D>, q: Request<D>, e: Evidence<D>): Option<ChainError> {
    if r.state.Active? then Some(Busy)
    else if r.fingerprint != q.fingerprint then Some(OtherFingerprint)
    else if r.seqId != q.seqId then Some(OtherOwner)
    else if !PrefixMatches(hash, r, e) then Some(PrefixMismatch)
    else None
  }

  /** `sorted(..., key=(last_access, chain_id))` */
  predicate Before<D>(s: Index<D>, a: string, b: string)
    requires a in s.records && b in s.records
  {
    s.records[a].lastAccess < s.records[b].lastAccess
    || (s.records[a].lastAccess == s.records[b].lastAccess && LexLeq(a, b))
  }

  predicate Evictable<D>(s: Index<D>, id: string, forChain: string) {
    id in s.records && s.records[id].state.Idle? && id != forChain
  }

  /** The chains that may be evicted for a chain, the least recently used first. */
  ghost predicate IsCandidates<D>(s: Index<D>, forChain: string, ids: seq<string>) {
    && NoDuplicates(ids)
    && (forall i | 0 <= i < |ids| :: Evictable(s, ids[i], forChain))
    && (forall id | Evictable(s, id, forChain) :: id in ids)
    && (forall i, j | 0 <= i < j < |ids| :: Before(s, ids[i], ids[j]))
  }

  function Floors(needs: seq<int>): seq<nat> {
    seq(|needs|, i requires 0 <= i < |needs| => AtLeastZero(needs[i]))
  }

  predicate Satisfied(slots: seq<nat>, rows: nat) {
    rows == 0 && forall i | 0 <= i < |slots| :: slots[i] == 0
  }

  function SlotAt(slots: seq<nat>, layer: nat): nat {
    if layer < |slots| then slots[layer] else 0
  }

  /** What is still needed once a chain has gone. */
  function Reduced(needs: seq<nat>, freed: seq<nat>): (r: seq<nat>)
    ensures |r| == |needs|
  {
    seq(|needs|, i requires 0 <= i < |needs| => AtLeastZero(needs[i] - SlotAt(freed, i)))
  }

  /** How many of the candidates the loop takes: it stops as soon as nothing is needed. */
  function VictimCount<D>(s: Index<D>, ids: seq<string>, slots: seq<nat>, rows: nat): (k: nat)
    requires forall id | id in ids :: id in s.records
    ensures k <= |ids|
  {
    if ids == [] || Satisfied(slots, rows) then 0
    else
      var r := s.records[ids[0]];
      1 + VictimCount(s, ids[1..], Reduced(slots, r.slots), AtLeastZero(rows - r.rows))
  }

  /** The needs that remain after taking `k` of the candidates. */
  function Remaining<D>(s: Index<D>, ids: seq<string>, slots: seq<nat>, rows: nat): (seq<nat>, nat)
    requires forall id | id in ids :: id in s.records
  {
    if ids == [] then (slots, rows)
    else
      var r := s.records[ids[0]];
      Remaining(s, ids[1..], Reduced(slots, r.slots), AtLeastZero(rows - r.rows))
  }

  predicate Covers<D>(s: Index<D>, ids: seq<string>, slots: seq<nat>, rows: nat)
    requires forall id | id in ids :: id in s.records
  {
    var left := Remaining(s, ids, slots, rows);
    Satisfied(left.0, left.1)
  }

  function CountError<D>(s: Index<D>, e: ChainError): Index<D> {
    match e
    case Busy => s.(stats := s.stats.(busy := s.stats.busy + 1))
    case PrefixMismatch => s.(stats := s.stats.(mismatch := s.stats.mismatch + 1))
    case _ => s
  }

  /** What stands in the way of a request apart from space. */
  function Refusal<D(==)>(hash: seq<int> -> D, s: Index<D>, q: Request<D>, e: Evidence<D>): Option<ChainError> {
    if q.chainId in s.records then CheckResume(hash, s.records[q.chainId], q, e)
    else if q.chainId in s.tombstones then Some(Gone)
    else None
  }

  /** `_plan_admission`, the candidates being given in order. */
  function PlanAdmission<D(==)>(hash: seq<int> -> D, s: Index<D>, q: Request<D>, e: Evidence<D>, ids: seq<string>)
    : (Index<D>, Result<Plan, ChainError>)
    requires forall id | id in ids :: id in s.records
  {
    var refusal := Refusal(hash, s, q, e);
    if refusal.Some? then (CountError(s, refusal.value), Failure(refusal.value))
    else
      var slots, rows := Floors(q.needSlots), AtLeastZero(q.needRows);
      var k := VictimCount(s, ids, slots, rows);
      if !Covers(s, ids[..k], slots, rows) then (s, Failure(NoCapacity))
      else
        var resumed := q.chainId in s.records;
        (s, Success(Plan(q.chainId, q.seqId, resumed, if resumed then s.records[q.chainId].processed else 0,
                         InputCount(e), ids[..k], Floors(q.reserveSlots), AtLeastZero(q.reserveRows))))
  }

  // ----- Carrying out a plan -----

  function EvictAll<D>(l: Limits, s: Index<D>, ids: seq<string>): (Index<D>, Option<ChainError>)
    decreases |ids|
  {
    if ids == [] then (s, None)
    else
      var (t, outcome) := Evict(l, s, ids[0]);
      if outcome.Failure? then (t, Some(outcome.error)) else EvictAll(l, t, ids[1..])
  }

  function NewRecord<D>(p: Plan, fingerprint: D, now: nat): Record<D> {
    Record(p.seqId, fingerprint, Active, 0, None, [], p.inputCount, now, [], 1, p.reservedSlots, p.reservedRows)
  }

  function ResumedRecord<D>(r: Record<D>, p: Plan, now: nat): Record<D> {
    r.(state := Active, lastInput := p.inputCount, lastAccess := now,
       reservedSlots := p.reservedSlots, reservedRows := p.reservedRows)
  }

  function Create<D>(s: Index<D>, p: Plan, fingerprint: D): (Index<D>, Result<Record<D>, ChainError>) {
    if p.chainId in s.records || p.seqId in s.owners then (s, Failure(OtherOwner))
    else
      var r := NewRecord(p, fingerprint, s.clock + 1);
      (s.(records := s.records[p.chainId := r], owners := s.owners[p.seqId := p.chainId], clock := s.clock + 1,
          stats := s.stats.(created := s.stats.created + 1)),
       Success(r))
  }

  function Resume<D>(s: Index<D>, p: Plan): (Index<D>, Result<Record<D>, ChainError>) {
    match Lookup(s, p.chainId)
    case Failure(e) => (s, Failure(e))
    case Success(was) =>
      if was.state.Active? then (s, Failure(Busy))
      else
        var r := ResumedRecord(was, p, s.clock + 1);
        (s.(records := s.records[p.chainId := r], clock := s.clock + 1,
            stats := s.stats.(resumed := s.stats.resumed + 1)),
         Success(r))
  }

  /** `apply_admission` */
  function ApplyAdmission<D>(l: Limits, s: Index<D>, p: Plan, fingerprint: D): (Index<D>, Result<Record<D>, ChainError>) {
    var (t, error) := EvictAll(l, s, p.victims);
    if error.Some? then (t, Failure(error.value))
    else if !p.resumed then Create(t, p, fingerprint)
    else Resume(t, p)
  }

  // ----- The end of a turn -----

  const MAX_TOKEN := 0xFFFF_FFFF

  predicate Storable(tokens: seq<int>) {
    forall i | 0 <= i < |tokens| :: 0 <= tokens[i] <= MAX_TOKEN
  }

  /** `_prepare_token_history`: what stands in the way of remembering the tokens. */
  function HistoryError<D>(l: Limits, s: Index<D>, r: Record<D>, tokens: seq<int>, count: int): Option<ChainError> {
    if count < 0 then Some(BadCount)
    else if !Storable(tokens) || |tokens| < count then Some(OtherOwner)
    else if l.history.Some? && s.history - |r.tokens| + |tokens| > l.history.value then Some(NoCapacity)
    else None
  }

  function FinishedRecord<D>(r: Record<D>, digest: D, count: nat, slots: seq<nat>, rows: nat, now: nat): Record<D> {
    r.(state := Idle, processed := count, digest := Some(digest), slots := slots, rows := rows,
       reservedSlots := [], reservedRows := 0, lastAccess := now)
  }

  /** `finish_digest` */
  function FinishDigest<D>(s: Index<D>, id: string, digest: D, count: int, slots: seq<nat>, rows: nat)
    : (Index<D>, Result<Record<D>, ChainError>)
  {
    match Lookup(s, id)
    case Failure(e) => (s, Failure(e))
    case Success(was) =>
      if was.state.Idle? || count < was.processed then (s, Failure(OtherOwner))
      else
        var r := FinishedRecord(was, digest, count, slots, rows, s.clock + 1);
        (s.(records := s.records[id := r], clock := s.clock + 1,
            stats := s.stats.(finished := s.stats.finished + 1)),
         Success(r))
  }

  /** `_store_token_history` */
  function Store<D>(s: Index<D>, id: string, tokens: seq<int>): Index<D>
    requires id in s.records
  {
    s.(records := s.records[id := s.records[id].(tokens := tokens)],
       history := s.history - |s.records[id].tokens| + |tokens|)
  }

  /** `finish` */
  function Finish<D>(hash: seq<int> -> D, l: Limits, s: Index<D>, id: string, tokens: seq<int>, count: int,
                     slots: seq<nat>, rows: nat): (Index<D>, Result<Record<D>, ChainError>)
  {
    match Lookup(s, id)
    case Failure(e) => (s, Failure(e))
    case Success(was) =>
      var error := HistoryError(l, s, was, tokens, count);
      if error.Some? then (s, Failure(error.value))
      else
        var (t, outcome) := FinishDigest(s, id, hash(tokens[..count]), count, slots, rows);
        if outcome.Failure? then (t, outcome)
        else
          var u := Store(t, id, tokens);
          (u, Success(u.records[id]))
  }

  /** `finish_values`: the end of a turn on every rank. */
  function FinishValues<D>(s: Index<D>, id: string, seqId: int, digest: D, count: int, slots: seq<nat>)
    : (Index<D>, Result<Record<D>, ChainError>)
  {
    match Lookup(s, id)
    case Failure(e) => (s, Failure(e))
    case Success(was) =>
      if was.seqId != seqId then (s, Failure(OtherOwner)) else FinishDigest(s, id, digest, count, slots, 1)
  }

  /** `remember_processed_tokens`: rank 0 keeps the tokens behind the digest. */
  function Remember<D(==)>(hash: seq<int> -> D, l: Limits, s: Index<D>, id: string, seqId: int, tokens: seq<int>, count: int)
    : (Index<D>, Result<Record<D>, ChainError>)
  {
    match Lookup(s, id)
    case Failure(e) => (s, Failure(e))
    case Success(was) =>
      if was.seqId != seqId || was.state.Active? then (s, Failure(OtherOwner))
      else
        var error := HistoryError(l, s, was, tokens, count);
        if error.Some? then (s, Failure(error.value))
        else if count != was.processed || Some(hash(tokens[..count])) != was.digest then (s, Failure(OtherOwner))
        else
          var u := Store(s, id, tokens);
          (u, Success(u.records[id]))
  }
}
