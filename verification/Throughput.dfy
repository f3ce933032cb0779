/** Request timing of one batch, the decode throughput observed over the batch's window,
    and the rate that time per output token promises. */
module Throughput {
  import opened Wrappers

  // ----- Sums, maxima and minima -----

  function Sum(xs: seq<real>): real {
    if xs == [] then 0.0 else Sum(xs[..|xs| - 1]) + xs[|xs| - 1]
  }

  function Mean(xs: seq<real>): real
    requires xs != []
  {
    Sum(xs) / |xs| as real
  }

  function MaxOf(xs: seq<real>): (m: real)
    requires xs != []
    ensures m in xs && forall x | x in xs :: x <= m
  {
    var n := |xs| - 1;
    assert xs == xs[..n] + [xs[n]];
    if n == 0 then xs[0]
    else
      var front := MaxOf(xs[..n]);
      if xs[n] > front then xs[n] else front
  }

  function MinOf(xs: seq<real>): (m: real)
    requires xs != []
    ensures m in xs && forall x | x in xs :: m <= x
  {
    var n := |xs| - 1;
    assert xs == xs[..n] + [xs[n]];
    if n == 0 then xs[0]
    else
      var front := MinOf(xs[..n]);
      if xs[n] < front then xs[n] else front
  }

  // ----- One batch -----

  /** What is known of one request. */
  datatype Request = Request(arrival: real, first: real, finished: real, generated: int)

  datatype Timing = Timing(id: int, ttftMs: real, latencyMs: real, tpotMs: Option<real>, generated: int)

  datatype Metrics = Metrics(ttftMs: real, tpotMs: Option<real>, prefillS: real, decodeS: real, timings: seq<Timing>)

  datatype TimingError = NoRequests | CoverageMismatch | NoTokens(id: int) | BadOrder(id: int) | NoDecodeTime(id: int)

  function Complaint(id: int, r: Request): Option<TimingError> {
    if r.generated <= 0 then Some(NoTokens(id))
    else if r.first < r.arrival || r.finished < r.first then Some(BadOrder(id))
    else if r.generated > 1 && r.finished - r.first <= 0.0 then Some(NoDecodeTime(id))
    else None
  }

  function FirstAt(r: Request): real { r.first }
  function FinishedAt(r: Request): real { r.finished }
  function PrefillS(r: Request): real { r.first - r.arrival }
  function TtftMs(r: Request): real { (r.first - r.arrival) * 1000.0 }
  function DecodeS(r: Request): real { r.finished - r.first }

  /** Milliseconds per token after the first. */
  function Tpot(r: Request): real
    requires r.generated > 1
  {
    DecodeS(r) * 1000.0 / (r.generated - 1) as real
  }

  function TimingOf(id: int, r: Request): Timing {
    Timing(id, (r.first - r.arrival) * 1000.0, (r.finished - r.arrival) * 1000.0,
           if r.generated > 1 then Some(Tpot(r)) else None, r.generated)
  }

  /** The times per output token of the requests that have one. */
  function Tpots(rs: seq<Request>): seq<real> {
    if rs == [] then []
    else
      var last := rs[|rs| - 1];
      Tpots(rs[..|rs| - 1]) + if last.generated > 1 then [Tpot(last)] else []
  }

  function Project(rs: seq<Request>, f: Request -> real): (xs: seq<real>)
    ensures |xs| == |rs|
    ensures forall i | 0 <= i < |rs| :: xs[i] == f(rs[i])
  {
    seq(|rs|, i requires 0 <= i < |rs| => f(rs[i]))
  }

  function Window(rs: seq<Request>): real
    requires rs != []
  {
    MaxOf(Project(rs, FinishedAt)) - MinOf(Project(rs, FirstAt))
  }

  function MetricsOf(ids: seq<int>, rs: seq<Request>): Metrics
    requires rs != [] && |ids| == |rs|
  {
    var tpots := Tpots(rs);
    Metrics(MaxOf(Project(rs, TtftMs)),
            if tpots == [] then None else Some(Mean(tpots)),
            MaxOf(Project(rs, PrefillS)),
            Window(rs),
            seq(|rs|, i requires 0 <= i < |rs| => TimingOf(ids[i], rs[i])))
  }

  /** The four dictionaries a batch is timed with. */
  datatype Timeline = Timeline(arrivals: map<int, real>, firsts: map<int, real>, finishes: map<int, real>,
                               counts: map<int, int>)

  predicate Covered(t: Timeline) {
    t.firsts.Keys == t.arrivals.Keys && t.finishes.Keys == t.arrivals.Keys && t.counts.Keys == t.arrivals.Keys
  }

  function RequestOf(t: Timeline, id: int): Request
    requires Covered(t) && id in t.arrivals
  {
    Request(t.arrivals[id], t.firsts[id], t.finishes[id], t.counts[id])
  }

  function Requests(t: Timeline, ids: seq<int>): seq<Request>
    requires Covered(t) && forall id | id in ids :: id in t.arrivals
  {
    seq(|ids|, i requires 0 <= i < |ids| => RequestOf(t, ids[i]))
  }

  ghost predicate Ascending(ids: seq<int>, all: set<int>) {
    && (forall i, j | 0 <= i < j < |ids| :: ids[i] < ids[j])
    && (forall id :: id in all <==> id in ids)
  }

  /** `sorted(expected)` */
  method SortedIds(all: set<int>) returns (ids: seq<int>)
    ensures Ascending(ids, all)
  {
    ids := [];
    var rest := all;
    while rest != {}
      invariant rest <= all
      invariant forall id :: id in all <==> id in ids || id in rest
      invariant forall i, j | 0 <= i < j < |ids| :: ids[i] < ids[j]
      invariant forall i, id | 0 <= i < |ids| && id in rest :: ids[i] < id
    {
      var least := Least(rest);
      ids := ids + [least];
      rest := rest - {least};
    }
  }

  lemma {:induction false} SomeElement(s: set<int>)
    requires s != {}
    ensures exists x :: x in s
  {
    assert (forall x :: x !in s) ==> s == {};
  }

  method Least(s: set<int>) returns (least: int)
    requires s != {}
    ensures least in s && forall x | x in s :: least <= x
  {
    SomeElement(s);
    least :| least in s;
    var unseen := s - {least};
    while unseen != {}
      invariant least in s && unseen <= s
      invariant forall x | x in s && x !in unseen :: least <= x
      decreases unseen
    {
      SomeElement(unseen);
      var x :| x in unseen;
      unseen := unseen - {x};
      if x < least {
        least := x;
      }
    }
  }

  /** The loop over the requests: stops at the first impossible one. */
  method TimeRequests(ids: seq<int>, rs: seq<Request>)
    returns (timings: seq<Timing>, tpots: seq<real>, error: Option<TimingError>, ghost stop: nat)
    requires |ids| == |rs|
    ensures stop <= |rs| && forall k | 0 <= k < stop :: Complaint(ids[k], rs[k]) == None
    ensures error.Some? ==> stop < |rs| && Complaint(ids[stop], rs[stop]) == error
    ensures error.None? ==> stop == |rs| && tpots == Tpots(rs)
    ensures error.None? ==> timings == seq(|rs|, i requires 0 <= i < |rs| => TimingOf(ids[i], rs[i]))
  {
    hide Complaint, TimingOf, Tpot;
    timings, tpots, error, stop := [], [], None, 0;
    for i := 0 to |rs|
      invariant stop == i && tpots == Tpots(rs[..i])
      invariant |timings| == i && forall k | 0 <= k < i :: timings[k] == TimingOf(ids[k], rs[k])
      invariant forall k | 0 <= k < i :: Complaint(ids[k], rs[k]) == None
    {
      error := Complaint(ids[i], rs[i]);
      if error.Some? {
        return;
      }
      assert rs[..i + 1][..i] == rs[..i];
      if rs[i].generated > 1 {
        tpots := tpots + [Tpot(rs[i])];
      }
      timings := timings + [TimingOf(ids[i], rs[i])];
      stop := i + 1;
    }
    error := None;
    assert rs[..|rs|] == rs;
  }

  ghost predicate AllPossible(t: Timeline)
    requires Covered(t)
  {
    forall id | id in t.arrivals :: Complaint(id, RequestOf(t, id)) == None
  }

  /** `error` names the least impossible request. */
  ghost predicate LeastImpossible(t: Timeline, id: int, error: TimingError)
    requires Covered(t)
  {
    && id in t.arrivals && Complaint(id, RequestOf(t, id)) == Some(error)
    && forall lower | lower in t.arrivals && lower < id :: Complaint(lower, RequestOf(t, lower)) == None
  }

  ghost predicate IsMetrics(t: Timeline, ids: seq<int>, m: Metrics) {
    && Covered(t) && Ascending(ids, t.arrivals.Keys) && ids != []
    && m == MetricsOf(ids, Requests(t, ids))
  }

  // ----- The metrics, in the timeline's own dictionaries -----

  /** One request's timing. */
  ghost predicate TimingRead(t: Timeline, x: Timing)
    requires Covered(t)
  {
    && x.id in t.arrivals && x.generated == t.counts[x.id]
    && x.ttftMs == (t.firsts[x.id] - t.arrivals[x.id]) * 1000.0
    && x.latencyMs == (t.finishes[x.id] - t.arrivals[x.id]) * 1000.0
    && (x.tpotMs.Some? <==> t.counts[x.id] > 1)
    && (x.tpotMs.Some? ==>
          x.tpotMs.value * (t.counts[x.id] - 1) as real == (t.finishes[x.id] - t.firsts[x.id]) * 1000.0)
  }

  /** The requests in order of id, each once. */
  ghost predicate TimingsRead(t: Timeline, timings: seq<Timing>)
    requires Covered(t)
  {
    && (forall i | 0 <= i < |timings| :: TimingRead(t, timings[i]))
    && (forall i, j | 0 <= i < j < |timings| :: timings[i].id < timings[j].id)
    && (forall id | id in t.arrivals :: exists i :: 0 <= i < |timings| && timings[i].id == id)
  }

  /** The longest of the waits for a first token. */
  ghost predicate LongestWait(t: Timeline, wait: real)
    requires Covered(t)
  {
    && (exists id :: id in t.arrivals && t.firsts[id] - t.arrivals[id] == wait)
    && (forall id | id in t.arrivals :: t.firsts[id] - t.arrivals[id] <= wait)
  }

  /** From the first of the first tokens to the last of the completions. */
  ghost predicate DecodeSpan(t: Timeline, span: real)
    requires Covered(t)
  {
    exists last, start ::
      && last in t.arrivals && start in t.arrivals && span == t.finishes[last] - t.firsts[start]
      && forall id | id in t.arrivals :: t.finishes[id] <= t.finishes[last] && t.firsts[start] <= t.firsts[id]
  }

  ghost function TpotSum(timings: seq<Timing>): real {
    if timings == [] then 0.0
    else
      var last := timings[|timings| - 1];
      TpotSum(timings[..|timings| - 1]) + if last.tpotMs.Some? then last.tpotMs.value else 0.0
  }

  ghost function TpotCount(timings: seq<Timing>): nat {
    if timings == [] then 0
    else TpotCount(timings[..|timings| - 1]) + if timings[|timings| - 1].tpotMs.Some? then 1 else 0
  }

  /** The mean over the requests that have a time per token. */
  ghost predicate MeanTpot(timings: seq<Timing>, tpotMs: Option<real>) {
    if TpotCount(timings) == 0 then tpotMs == None
    else tpotMs.Some? && tpotMs.value * TpotCount(timings) as real == TpotSum(timings)
  }

  ghost predicate MetricsRead(t: Timeline, m: Metrics)
    requires Covered(t)
  {
    && TimingsRead(t, m.timings) && MeanTpot(m.timings, m.tpotMs)
    && LongestWait(t, m.prefillS) && m.ttftMs == m.prefillS * 1000.0
    && DecodeSpan(t, m.decodeS)
  }

  lemma {:induction false} TpotTotals(ids: seq<int>, rs: seq<Request>)
    requires |ids| == |rs|
    ensures var timings := seq(|rs|, i requires 0 <= i < |rs| => TimingOf(ids[i], rs[i]));
            TpotSum(timings) == Sum(Tpots(rs)) && TpotCount(timings) == |Tpots(rs)|
  {
    if rs != [] {
      hide TimingOf, TpotSum, TpotCount, Tpots, Sum, Tpot;
      var n := |rs| - 1;
      var timings := seq(|rs|, i requires 0 <= i < |rs| => TimingOf(ids[i], rs[i]));
      var front := seq(n, i requires 0 <= i < n => TimingOf(ids[..n][i], rs[..n][i]));
      TpotTotals(ids[..n], rs[..n]);
      assert timings[..n] == front;
      LastTiming(timings, ids[n], rs[n]);
      LastTpot(rs);
    }
  }

  lemma {:induction false} LastTiming(timings: seq<Timing>, id: int, r: Request)
    requires timings != [] && timings[|timings| - 1] == TimingOf(id, r)
    ensures var front := timings[..|timings| - 1];
            && TpotSum(timings) == TpotSum(front) + (if r.generated > 1 then Tpot(r) else 0.0)
            && TpotCount(timings) == TpotCount(front) + if r.generated > 1 then 1 else 0
  {
    hide Tpot;
  }

  lemma {:induction false} LastTpot(rs: seq<Request>)
    requires rs != []
    ensures var front, r := rs[..|rs| - 1], rs[|rs| - 1];
            && Sum(Tpots(rs)) == Sum(Tpots(front)) + (if r.generated > 1 then Tpot(r) else 0.0)
            && |Tpots(rs)| == |Tpots(front)| + if r.generated > 1 then 1 else 0
  {
    hide Tpot;
    var front, r := Tpots(rs[..|rs| - 1]), rs[|rs| - 1];
    if r.generated > 1 {
      assert (front + [Tpot(r)])[..|front|] == front;
    } else {
      assert Tpots(rs) == front + [] == front;
    }
  }

  lemma {:induction false} MeanTimes(xs: seq<real>)
    requires xs != []
    ensures Mean(xs) * |xs| as real == Sum(xs)
  {
    Quotient(Sum(xs), |xs| as real);
  }

  lemma {:induction false} TpotTimesSteps(r: Request)
    requires r.generated > 1
    ensures Tpot(r) * (r.generated - 1) as real == (r.finished - r.first) * 1000.0
  {
    Quotient(DecodeS(r) * 1000.0, (r.generated - 1) as real);
  }

  lemma {:induction false} TimingIsRead(t: Timeline, id: int)
    requires Covered(t) && id in t.arrivals
    ensures TimingRead(t, TimingOf(id, RequestOf(t, id)))
  {
    if t.counts[id] > 1 {
      TpotTimesSteps(RequestOf(t, id));
    }
  }

  lemma {:induction false} TimingsAreRead(t: Timeline, ids: seq<int>, timings: seq<Timing>)
    requires Covered(t) && Ascending(ids, t.arrivals.Keys)
    requires timings == seq(|ids|, i requires 0 <= i < |ids| => TimingOf(ids[i], Requests(t, ids)[i]))
    ensures TimingsRead(t, timings)
  {
    hide TimingRead;
    forall i | 0 <= i < |ids| ensures timings[i].id == ids[i] && TimingRead(t, timings[i]) {
      TimingIsRead(t, ids[i]);
      assert TimingOf(ids[i], RequestOf(t, ids[i])).id == ids[i];
    }
    forall id | id in t.arrivals ensures exists i :: 0 <= i < |timings| && timings[i].id == id {
      var i :| 0 <= i < |ids| && ids[i] == id;
      assert timings[i].id == id;
    }
  }

  lemma {:induction false} RequestAt(t: Timeline, ids: seq<int>, i: nat)
    requires Covered(t) && Ascending(ids, t.arrivals.Keys) && i < |ids|
    ensures forall id | id in ids :: id in t.arrivals
    ensures ids[i] in t.arrivals
    ensures Requests(t, ids)[i] == Request(t.arrivals[ids[i]], t.firsts[ids[i]], t.finishes[ids[i]], t.counts[ids[i]])
  {
  }

  lemma {:induction false} PlaceOf(t: Timeline, ids: seq<int>, id: int) returns (i: nat)
    requires Covered(t) && Ascending(ids, t.arrivals.Keys) && id in t.arrivals
    ensures i < |ids| && ids[i] == id
  {
    assert id in t.arrivals.Keys;
    i :| 0 <= i < |ids| && ids[i] == id;
  }

  lemma {:induction false} AllResident(t: Timeline, ids: seq<int>)
    requires Covered(t) && Ascending(ids, t.arrivals.Keys)
    ensures forall id | id in ids :: id in t.arrivals
  {
  }

  lemma {:induction false} Extremes(xs: seq<real>, i: nat)
    requires i < |xs|
    ensures MinOf(xs) <= xs[i] <= MaxOf(xs)
  {
    assert xs[i] in xs;
  }

  /** The projections of a request's record, in the dictionaries. */
  lemma {:induction false} ProjectedAt(t: Timeline, ids: seq<int>, i: nat)
    requires Covered(t) && Ascending(ids, t.arrivals.Keys) && i < |ids|
    ensures ids[i] in t.arrivals && forall id | id in ids :: id in t.arrivals
    ensures |Requests(t, ids)| == |ids|
    ensures var rs := Requests(t, ids);
            && Project(rs, PrefillS)[i] == t.firsts[ids[i]] - t.arrivals[ids[i]]
            && Project(rs, TtftMs)[i] == (t.firsts[ids[i]] - t.arrivals[ids[i]]) * 1000.0
            && Project(rs, FinishedAt)[i] == t.finishes[ids[i]]
            && Project(rs, FirstAt)[i] == t.firsts[ids[i]]
  {
    RequestAt(t, ids, i);
    var rs := Requests(t, ids);
    hide Ascending, RequestOf, Project;
    assert rs[i] == Request(t.arrivals[ids[i]], t.firsts[ids[i]], t.finishes[ids[i]], t.counts[ids[i]]);
  }

  lemma {:induction false} WaitsAreRead(t: Timeline, ids: seq<int>)
    requires Covered(t) && Ascending(ids, t.arrivals.Keys) && ids != []
    ensures forall id | id in ids :: id in t.arrivals
    ensures |Requests(t, ids)| == |ids|
    ensures LongestWait(t, MaxOf(Project(Requests(t, ids), PrefillS)))
    ensures MaxOf(Project(Requests(t, ids), TtftMs)) == MaxOf(Project(Requests(t, ids), PrefillS)) * 1000.0
  {
    hide Ascending, Requests, RequestOf, MaxOf, Project;
    ProjectedAt(t, ids, 0);
    var rs := Requests(t, ids);
    var waits, scaled := Project(rs, PrefillS), Project(rs, TtftMs);
    var k :| 0 <= k < |waits| && waits[k] == MaxOf(waits);
    var j :| 0 <= j < |scaled| && scaled[j] == MaxOf(scaled);
    ProjectedAt(t, ids, k);
    ProjectedAt(t, ids, j);
    Extremes(waits, j);
    Extremes(scaled, k);
    forall id | id in t.arrivals ensures t.firsts[id] - t.arrivals[id] <= waits[k] {
      var i := PlaceOf(t, ids, id);
      ProjectedAt(t, ids, i);
      Extremes(waits, i);
    }
    LongestIs(t, ids[k], waits[k]);
  }

  lemma {:induction false} LongestIs(t: Timeline, id: int, wait: real)
    requires Covered(t) && id in t.arrivals && wait == t.firsts[id] - t.arrivals[id]
    requires forall x | x in t.arrivals :: t.firsts[x] - t.arrivals[x] <= wait
    ensures LongestWait(t, wait)
  {
  }

  lemma {:induction false} SpanIs(t: Timeline, last: int, start: int, span: real)
    requires Covered(t) && last in t.arrivals && start in t.arrivals && span == t.finishes[last] - t.firsts[start]
    requires forall id | id in t.arrivals :: t.finishes[id] <= t.finishes[last] && t.firsts[start] <= t.firsts[id]
    ensures DecodeSpan(t, span)
  {
  }

  lemma {:induction false} SameCount(t: Timeline, ids: seq<int>)
    requires Covered(t) && forall id | id in ids :: id in t.arrivals
    ensures |Requests(t, ids)| == |ids|
  {
  }

  lemma {:induction false} SpanIsRead(t: Timeline, ids: seq<int>)
    requires Covered(t) && Ascending(ids, t.arrivals.Keys) && ids != []
    ensures forall id | id in ids :: id in t.arrivals
    ensures Requests(t, ids) != [] && DecodeSpan(t, Window(Requests(t, ids)))
  {
    hide Ascending, Requests, RequestOf, MaxOf, MinOf, Project;
    ProjectedAt(t, ids, 0);
    var rs := Requests(t, ids);
    var ends, starts := Project(rs, FinishedAt), Project(rs, FirstAt);
    var a :| 0 <= a < |ends| && ends[a] == MaxOf(ends);
    var b :| 0 <= b < |starts| && starts[b] == MinOf(starts);
    ProjectedAt(t, ids, a);
    ProjectedAt(t, ids, b);
    forall id | id in t.arrivals ensures t.finishes[id] <= t.finishes[ids[a]] && t.firsts[ids[b]] <= t.firsts[id] {
      var i := PlaceOf(t, ids, id);
      ProjectedAt(t, ids, i);
      Extremes(ends, i);
      Extremes(starts, i);
    }
    SpanIs(t, ids[a], ids[b], Window(rs));
  }

  lemma {:induction false} MetricsAreRead(t: Timeline, ids: seq<int>, m: Metrics)
    requires IsMetrics(t, ids, m)
    ensures MetricsRead(t, m)
  {
    hide TimingsRead, LongestWait, DecodeSpan, Window, TpotSum, TpotCount, Tpots, Mean, Ascending, Requests, Project, MaxOf,
         TimingOf;
    AllResident(t, ids);
    SameCount(t, ids);
    var rs := Requests(t, ids);
    TimingsAreRead(t, ids, m.timings);
    WaitsAreRead(t, ids);
    SpanIsRead(t, ids);
    TpotTotals(ids, rs);
    if Tpots(rs) != [] {
      MeanTimes(Tpots(rs));
    }
  }

  /** `_request_phase_metrics_from_timestamps`: raises exactly when there is no request, the
      dictionaries disagree on the requests, or a request's record is impossible; in the
      last case it names the least such request. */
  method RequestPhaseMetrics(t: Timeline) returns (result: Result<Metrics, TimingError>)
    ensures t.arrivals == map[] <==> result == Failure(NoRequests)
    ensures t.arrivals != map[] ==> (!Covered(t) <==> result == Failure(CoverageMismatch))
    ensures t.arrivals != map[] && Covered(t) ==> (result.Success? <==> AllPossible(t))
    ensures t.arrivals != map[] && Covered(t) && result.Failure? ==> exists id :: LeastImpossible(t, id, result.error)
    ensures result.Success? ==> exists ids :: IsMetrics(t, ids, result.value)
    ensures result.Success? ==> Covered(t) && MetricsRead(t, result.value)
  {
    hide Complaint, TimingOf, Tpots, Project, Window, MetricsRead;
    if t.arrivals == map[] {
      return Failure(NoRequests);
    }
    if !Covered(t) {
      return Failure(CoverageMismatch);
    }
    var ids := SortedIds(t.arrivals.Keys);
    SomeId(t, ids);
    var rs := Requests(t, ids);
    var timings, tpots, error, stop := TimeRequests(ids, rs);
    if error.Some? {
      StoppedAt(t, ids, stop, error.value);
      return Failure(error.value);
    }
    RanThrough(t, ids);
    var metrics := Metrics(MaxOf(Project(rs, TtftMs)),
                           if tpots == [] then None else Some(Mean(tpots)),
                           MaxOf(Project(rs, PrefillS)),
                           Window(rs), timings);
    assert metrics == MetricsOf(ids, rs) && IsMetrics(t, ids, metrics);
    MetricsAreRead(t, ids, metrics);
    return Success(metrics);
  }

  lemma {:induction false} SomeId(t: Timeline, ids: seq<int>)
    requires Covered(t) && t.arrivals != map[] && Ascending(ids, t.arrivals.Keys)
    ensures ids != []
  {
    SomeElement(t.arrivals.Keys);
  }

  lemma {:induction false} StoppedAt(t: Timeline, ids: seq<int>, stop: nat, error: TimingError)
    requires Covered(t) && Ascending(ids, t.arrivals.Keys) && stop < |ids|
    requires forall k | 0 <= k < stop :: Complaint(ids[k], Requests(t, ids)[k]) == None
    requires Complaint(ids[stop], Requests(t, ids)[stop]) == Some(error)
    ensures LeastImpossible(t, ids[stop], error) && !AllPossible(t)
    ensures error.NoTokens? || error.BadOrder? || error.NoDecodeTime?
  {
    assert ids[stop] in t.arrivals.Keys;
    forall lower | lower in t.arrivals && lower < ids[stop] ensures Complaint(lower, RequestOf(t, lower)) == None {
      assert lower in t.arrivals.Keys;
      var k :| 0 <= k < |ids| && ids[k] == lower;
      assert k < stop && Requests(t, ids)[k] == RequestOf(t, lower);
    }
  }

  lemma {:induction false} RanThrough(t: Timeline, ids: seq<int>)
    requires Covered(t) && Ascending(ids, t.arrivals.Keys)
    requires forall k | 0 <= k < |ids| :: Complaint(ids[k], Requests(t, ids)[k]) == None
    ensures AllPossible(t)
  {
    forall id | id in t.arrivals ensures Complaint(id, RequestOf(t, id)) == None {
      assert id in t.arrivals.Keys;
      var k :| 0 <= k < |ids| && ids[k] == id;
      assert Requests(t, ids)[k] == RequestOf(t, id);
    }
  }

  // ----- Rates -----

  datatype RateError = BadProxyInputs | BadPrefillInputs | TooFewTokens | NoDecodeWindow

  /** `_tpot_concurrency_proxy_tps` */
  function ConcurrencyProxy(concurrency: int, tpotMs: Option<real>): Result<Option<real>, RateError> {
    if tpotMs.None? then Success(None)
    else if concurrency <= 0 || tpotMs.value <= 0.0 then Failure(BadProxyInputs)
    else Success(Some(concurrency as real * 1000.0 / tpotMs.value))
  }

  datatype Rates = Rates(prefillTps: real, decodeTokens: int, decodeTps: Option<real>)

  /** `_phase_throughput_metrics` */
  function PhaseThroughput(inputTokens: int, outputTokens: int, requests: int, prefillS: real, decodeS: real)
    : Result<Rates, RateError>
  {
    var decodeTokens := outputTokens - requests;
    if inputTokens <= 0 || requests <= 0 || prefillS <= 0.0 then Failure(BadPrefillInputs)
    else if decodeTokens < 0 then Failure(TooFewTokens)
    else if decodeTokens > 0 && decodeS <= 0.0 then Failure(NoDecodeWindow)
    else Success(Rates(inputTokens as real / prefillS, decodeTokens,
                       if decodeTokens > 0 then Some(decodeTokens as real / decodeS) else None))
  }

  /** What the rates are: tokens over time, the first token of each request counting as
      prefill; and when they are refused. */
  lemma {:induction false} PhaseRates(inputTokens: int, outputTokens: int, requests: int, prefillS: real, decodeS: real)
    ensures var outcome := PhaseThroughput(inputTokens, outputTokens, requests, prefillS, decodeS);
            var sane := inputTokens > 0 && requests > 0 && prefillS > 0.0;
            && (outcome == Failure(BadPrefillInputs) <==> !sane)
            && (outcome == Failure(TooFewTokens) <==> sane && outputTokens < requests)
            && (outcome == Failure(NoDecodeWindow) <==> sane && outputTokens > requests && decodeS <= 0.0)
            && (outcome.Success? <==> sane && outputTokens >= requests && (outputTokens > requests ==> decodeS > 0.0))
            && (outcome.Success? ==>
                  var rates := outcome.value;
                  && rates.prefillTps * prefillS == inputTokens as real
                  && rates.decodeTokens == outputTokens - requests
                  && (rates.decodeTps.Some? <==> outputTokens > requests)
                  && (rates.decodeTps.Some? ==> rates.decodeTps.value * decodeS == (outputTokens - requests) as real))
  {
    if prefillS != 0.0 {
      Quotient(inputTokens as real, prefillS);
    }
    if decodeS != 0.0 {
      Quotient((outputTokens - requests) as real, decodeS);
    }
  }

  lemma {:induction false} ProxyIs(concurrency: int, tpotMs: Option<real>)
    ensures var outcome := ConcurrencyProxy(concurrency, tpotMs);
            && (outcome == Success(None) <==> tpotMs == None)
            && (outcome == Failure(BadProxyInputs) <==> tpotMs.Some? && (concurrency <= 0 || tpotMs.value <= 0.0))
            && (outcome.Success? && outcome.value.Some? ==>
                  tpotMs.Some? && outcome.value.value * tpotMs.value == concurrency as real * 1000.0)
  {
    if tpotMs.Some? && tpotMs.value > 0.0 {
      Quotient(concurrency as real * 1000.0, tpotMs.value);
    }
  }

  // ----- Arithmetic -----

  lemma {:induction false} Quotient(a: real, b: real)
    requires b != 0.0
    ensures a / b * b == a
  {
  }

  lemma {:induction false} Cancel(a: real, b: real, c: real)
    requires c > 0.0 && a * c <= b * c
    ensures a <= b
  {
    assert (a - b) * c == a * c - b * c;
    assert a > b ==> (a - b) * c > 0.0;
  }

  lemma {:induction false} LargerDivisor(a: real, b: real, b': real)
    requires a >= 0.0 && 0.0 < b <= b'
    ensures a / b' <= a / b
  {
    var q, q' := a / b, a / b';
    Quotient(a, b);
    Quotient(a, b');
    NonNegativeQuotient(a, b');
    assert q' * b <= q' * b';
    Cancel(q', q, b);
  }

  lemma {:induction false} NonNegativeQuotient(a: real, b: real)
    requires a >= 0.0 && b > 0.0
    ensures a / b >= 0.0
  {
  }

  // ----- Observed throughput against the promised rate -----

  predicate Possible(r: Request) { Complaint(0, r) == None }

  /** What is complained of: no token first, then the order of events, then a decode without
      duration. */
  lemma {:induction false} ComplaintIs(id: int, r: Request)
    ensures var complaint := Complaint(id, r);
            var ordered := r.arrival <= r.first <= r.finished;
            && (complaint == Some(NoTokens(id)) <==> r.generated < 1)
            && (complaint == Some(BadOrder(id)) <==> r.generated >= 1 && !ordered)
            && (complaint == Some(NoDecodeTime(id)) <==> r.generated > 1 && ordered && r.first == r.finished)
            && (complaint == None <==> Possible(r))
            && (Possible(r) <==> r.generated >= 1 && ordered && (r.generated > 1 ==> r.first < r.finished))
  {
  }

  function TotalGenerated(rs: seq<Request>): int {
    if rs == [] then 0 else TotalGenerated(rs[..|rs| - 1]) + rs[|rs| - 1].generated
  }

  function TotalDecode(rs: seq<Request>): real {
    if rs == [] then 0.0 else TotalDecode(rs[..|rs| - 1]) + DecodeS(rs[|rs| - 1])
  }

  /** No request decodes for longer than the batch's window. */
  lemma {:induction false} WithinWindow(rs: seq<Request>, i: nat)
    requires i < |rs|
    ensures DecodeS(rs[i]) <= Window(rs)
  {
    var finishes, firsts := Project(rs, FinishedAt), Project(rs, FirstAt);
    assert finishes[i] in finishes && firsts[i] in firsts;
    assert finishes[i] <= MaxOf(finishes) && MinOf(firsts) <= firsts[i];
    assert finishes[i] == FinishedAt(rs[i]) && firsts[i] == FirstAt(rs[i]);
  }

  ghost predicate AllWithin(rs: seq<Request>, w: real) {
    forall i | 0 <= i < |rs| :: DecodeS(rs[i]) <= w
  }

  ghost predicate AllFill(rs: seq<Request>, w: real) {
    forall i | 0 <= i < |rs| :: DecodeS(rs[i]) == w
  }

  lemma {:induction false} TotalDecodeAtMost(rs: seq<Request>, w: real)
    requires AllWithin(rs, w)
    ensures TotalDecode(rs) <= |rs| as real * w
    ensures TotalDecode(rs) == |rs| as real * w <==> AllFill(rs, w)
  {
    if rs != [] {
      var n := |rs| - 1;
      TotalDecodeAtMost(rs[..n], w);
      OneMore(n, w);
      assert AllFill(rs, w) <==> AllFill(rs[..n], w) && DecodeS(rs[n]) == w by {
        if AllFill(rs[..n], w) && DecodeS(rs[n]) == w {
          assert forall i | 0 <= i < n :: rs[i] == rs[..n][i];
        }
      }
    }
  }

  lemma {:induction false} OneMore(n: nat, w: real)
    ensures (n + 1) as real * w == n as real * w + w
  {
  }

  ghost predicate AllOf(rs: seq<Request>, g: int) {
    forall i | 0 <= i < |rs| :: Possible(rs[i]) && rs[i].generated == g
  }

  lemma {:induction false} SumAppend(xs: seq<real>, x: real)
    ensures Sum(xs + [x]) == Sum(xs) + x
  {
    assert (xs + [x])[..|xs|] == xs;
  }

  predicate AddsUp(tpots: real, tokens: real, decode: real) { tpots * tokens == decode * 1000.0 }

  predicate IsTimes(total: int, n: int, g: int) { total == n * g }

  /** Requests of one length: their times per token add up to their decode time. */
  lemma {:induction false} SameLength(rs: seq<Request>, g: int)
    requires g > 1 && AllOf(rs, g)
    ensures |Tpots(rs)| == |rs| && IsTimes(TotalGenerated(rs), |rs|, g)
    ensures AddsUp(Sum(Tpots(rs)), (g - 1) as real, TotalDecode(rs))
    ensures if rs == [] then TotalDecode(rs) == 0.0 else TotalDecode(rs) > 0.0
  {
    hide *;
    TotalsStep(rs);
    if rs == [] {
      NothingAddsUp((g - 1) as real, g);
    } else {
      var n := |rs| - 1;
      FrontOf(rs, g);
      SameLength(rs[..n], g);
      TpotTimes(rs[n], g);
      AddRates(Sum(Tpots(rs[..n])), Tpot(rs[n]), (g - 1) as real, TotalDecode(rs[..n]), DecodeS(rs[n]));
      OneMoreInt(TotalGenerated(rs[..n]), n, g);
    }
  }

  lemma {:induction false} NothingAddsUp(k: real, g: int)
    ensures AddsUp(0.0, k, 0.0) && IsTimes(0, 0, g)
  {
  }

  lemma {:induction false} AddRates(s: real, t: real, k: real, total: real, d: real)
    requires AddsUp(s, k, total) && AddsUp(t, k, d)
    ensures AddsUp(s + t, k, total + d)
  {
  }

  lemma {:induction false} OneMoreInt(total: int, n: nat, g: int)
    requires IsTimes(total, n, g)
    ensures IsTimes(total + g, n + 1, g)
  {
  }

  lemma {:induction false} FrontOf(rs: seq<Request>, g: int)
    requires rs != [] && AllOf(rs, g)
    ensures AllOf(rs[..|rs| - 1], g) && Possible(rs[|rs| - 1]) && rs[|rs| - 1].generated == g
  {
  }

  lemma {:induction false} TotalsStep(rs: seq<Request>)
    ensures rs == [] ==> Tpots(rs) == [] && Sum(Tpots(rs)) == 0.0 && TotalGenerated(rs) == 0 && TotalDecode(rs) == 0.0
    ensures rs != [] ==>
              var front, last := rs[..|rs| - 1], rs[|rs| - 1];
              && TotalGenerated(rs) == TotalGenerated(front) + last.generated
              && TotalDecode(rs) == TotalDecode(front) + DecodeS(last)
              && (last.generated > 1 ==>
                    Tpots(rs) == Tpots(front) + [Tpot(last)] && Sum(Tpots(rs)) == Sum(Tpots(front)) + Tpot(last))
  {
    if rs != [] && rs[|rs| - 1].generated > 1 {
      SumAppend(Tpots(rs[..|rs| - 1]), Tpot(rs[|rs| - 1]));
    }
  }

  lemma {:induction false} TpotTimes(r: Request, g: int)
    requires Possible(r) && r.generated == g && g > 1
    ensures AddsUp(Tpot(r), (g - 1) as real, DecodeS(r)) && DecodeS(r) > 0.0
  {
    PossibleMeans(r);
    hide Tpot, Possible, Complaint, DecodeS;
    Quotient((r.finished - r.first) * 1000.0, (g - 1) as real);
  }

  lemma {:induction false} Rearrange(obs: real, w: real, n: real, k: real, proxy: real, mean: real, t: real, d: real)
    requires obs * w == n * k && proxy * mean == n * 1000.0 && mean * n == t && t * k == d * 1000.0
    ensures obs * (n * w) == proxy * d
  {
    assert obs * (n * w) == n * (obs * w) == n * (n * k);
    assert proxy * t == proxy * (mean * n) == (proxy * mean) * n == n * 1000.0 * n;
    assert proxy * (t * k) == (proxy * t) * k == n * 1000.0 * n * k;
    assert proxy * (d * 1000.0) == n * 1000.0 * n * k;
  }

  lemma {:induction false} ProxyCore(n: real, k: real, d: real, t: real, w: real)
    requires n > 0.0 && k > 0.0 && d > 0.0 && w > 0.0 && t > 0.0
    requires t * k == d * 1000.0 && d <= n * w
    ensures t / n > 0.0
    ensures n * k / w <= n * 1000.0 / (t / n)
    ensures n * k / w == n * 1000.0 / (t / n) <==> d == n * w
  {
    hide *;
    var obs, mean := n * k / w, t / n;
    Positive(t, n);
    var proxy := n * 1000.0 / mean;
    Quotient(n * k, w);
    Quotient(n * 1000.0, mean);
    Quotient(t, n);
    Rearrange(obs, w, n, k, proxy, mean, t, d);
    PositiveProduct(n, k);
    Positive(n * k, w);
    ScaleLeft(d, n * w, obs);
    Cancel(obs, proxy, d);
    if obs == proxy {
      CancelLeft(n * w, d, obs);
    }
    if d == n * w {
      Cancel(proxy, obs, d);
    }
  }

  lemma {:induction false} Positive(a: real, b: real)
    requires a > 0.0 && b > 0.0
    ensures a / b > 0.0
  {
  }

  lemma {:induction false} PositiveProduct(a: real, b: real)
    requires a > 0.0 && b > 0.0
    ensures a * b > 0.0
  {
  }

  lemma {:induction false} ScaleLeft(a: real, b: real, c: real)
    requires a <= b && c >= 0.0
    ensures c * a <= c * b
  {
  }

  lemma {:induction false} CancelLeft(a: real, b: real, c: real)
    requires c > 0.0 && c * a <= c * b
    ensures a <= b
  {
    Cancel(a, b, c);
  }

  /** In a batch whose requests all generate the same number of tokens, more than one, the
      observed decode throughput never exceeds the rate that the mean time per token
      promises at that concurrency, and reaches it exactly when every request decodes over
      the whole window. */
  lemma {:induction false} EqualLengthsBelowProxy(ids: seq<int>, rs: seq<Request>, g: int, inputTokens: int)
    requires rs != [] && |ids| == |rs| && g > 1 && AllOf(rs, g)
    ensures var m := MetricsOf(ids, rs);
            var proxy := ConcurrencyProxy(|rs|, m.tpotMs);
            var rates := PhaseThroughput(inputTokens, TotalGenerated(rs), |rs|, m.prefillS, m.decodeS);
            && proxy.Success? && proxy.value.Some?
            && (rates.Success? <==> inputTokens > 0 && m.prefillS > 0.0)
            && (rates.Success? ==>
                  && rates.value.decodeTps.Some?
                  && rates.value.decodeTps.value <= proxy.value.value
                  && (rates.value.decodeTps.value == proxy.value.value <==> AllFill(rs, Window(rs))))
  {
    hide *;
    var w := Window(rs);
    forall i: nat | i < |rs| ensures DecodeS(rs[i]) <= w {
      WithinWindow(rs, i);
    }
    WindowHolds(rs, w);
    TotalDecodeAtMost(rs, w);
    SameLength(rs, g);
    var n, k, d, t := |rs| as real, (g - 1) as real, TotalDecode(rs), Sum(Tpots(rs));
    TotalsAre(rs, g);
    PositiveFactor(t, k, d);
    PositiveOther(w, n, d);
    ProxyCore(n, k, d, t, w);
    DecodeTokens(|rs|, g);
    RatesAre(ids, rs, g, inputTokens);
  }

  lemma {:induction false} TotalsAre(rs: seq<Request>, g: int)
    requires IsTimes(TotalGenerated(rs), |rs|, g) && AddsUp(Sum(Tpots(rs)), (g - 1) as real, TotalDecode(rs))
    ensures TotalGenerated(rs) == |rs| * g && Sum(Tpots(rs)) * (g - 1) as real == TotalDecode(rs) * 1000.0
  {
  }

  lemma {:induction false} WindowHolds(rs: seq<Request>, w: real)
    requires forall i: nat | i < |rs| :: DecodeS(rs[i]) <= w
    ensures AllWithin(rs, w)
  {
  }

  lemma {:induction false} PositiveFactor(t: real, k: real, d: real)
    requires k > 0.0 && d > 0.0 && t * k == d * 1000.0
    ensures t > 0.0
  {
    assert t <= 0.0 ==> t * k <= 0.0;
  }

  lemma {:induction false} PositiveOther(w: real, n: real, d: real)
    requires n > 0.0 && d > 0.0 && d <= n * w
    ensures w > 0.0
  {
    assert w <= 0.0 ==> n * w <= 0.0;
  }

  lemma {:induction false} DecodeTokens(n: nat, g: int)
    requires n > 0 && g > 1
    ensures n * g - n > 0 && (n * g - n) as real == n as real * (g - 1) as real
  {
    assert n * g - n == n * (g - 1);
    ProductOfReals(n, g - 1);
    assert n * (g - 1) >= 1 * (g - 1);
  }

  lemma {:induction false} ProductOfReals(a: int, b: int)
    ensures (a * b) as real == a as real * b as real
  {
  }

  lemma {:induction false} RatesAre(ids: seq<int>, rs: seq<Request>, g: int, inputTokens: int)
    requires rs != [] && |ids| == |rs| && g > 1
    requires |Tpots(rs)| == |rs| && TotalGenerated(rs) == |rs| * g
    requires Sum(Tpots(rs)) / |rs| as real > 0.0 && Window(rs) > 0.0
    requires |rs| * g - |rs| > 0 && (|rs| * g - |rs|) as real == |rs| as real * (g - 1) as real
    ensures var m := MetricsOf(ids, rs);
            && ConcurrencyProxy(|rs|, m.tpotMs) == Success(Some(|rs| as real * 1000.0 / (Sum(Tpots(rs)) / |rs| as real)))
            && var rates := PhaseThroughput(inputTokens, TotalGenerated(rs), |rs|, m.prefillS, m.decodeS);
            && (rates.Success? <==> inputTokens > 0 && m.prefillS > 0.0)
            && (rates.Success? ==> rates.value.decodeTps == Some(|rs| as real * (g - 1) as real / Window(rs)))
  {
    hide Tpots, Sum, Window, TotalGenerated, Project;
  }

  /** The rates of the single requests that decode at all, added up. */
  function RateSum(rs: seq<Request>): real
    requires forall i | 0 <= i < |rs| :: Possible(rs[i])
  {
    if rs == [] then 0.0
    else
      var last := rs[|rs| - 1];
      assert Possible(last);
      RateSum(rs[..|rs| - 1]) + if last.generated > 1 then (TpotPositive(last); 1000.0 / Tpot(last)) else 0.0
  }

  lemma {:induction false} TpotPositive(r: Request)
    requires Possible(r) && r.generated > 1
    ensures Tpot(r) > 0.0
    ensures 1000.0 / Tpot(r) == (r.generated - 1) as real / DecodeS(r)
  {
    hide *;
    var d, k := r.finished - r.first, (r.generated - 1) as real;
    PossibleMeans(r);
    Positive(d * 1000.0, k);
    InverseRate(d, k);
  }

  lemma {:induction false} PossibleMeans(r: Request)
    requires Possible(r) && r.generated > 1
    ensures r.finished - r.first > 0.0 && DecodeS(r) == r.finished - r.first
    ensures Tpot(r) == (r.finished - r.first) * 1000.0 / (r.generated - 1) as real
  {
  }

  lemma {:induction false} InverseRate(d: real, k: real)
    requires d > 0.0 && k > 0.0 && d * 1000.0 / k > 0.0
    ensures 1000.0 / (d * 1000.0 / k) == k / d
  {
    var tpot := d * 1000.0 / k;
    var x, y := 1000.0 / tpot, k / d;
    Quotient(d * 1000.0, k);
    Quotient(1000.0, tpot);
    Quotient(k, d);
    Associate(x, tpot, k);
    Associate(x, d, 1000.0);
    assert x * d * 1000.0 == y * d * 1000.0;
    Cancel(x, y, d);
    Cancel(y, x, d);
  }

  lemma {:induction false} Associate(a: real, b: real, c: real)
    ensures a * (b * c) == a * b * c
  {
  }

  lemma {:induction false} RateSumStep(rs: seq<Request>, w: real)
    requires w > 0.0 && AllWithin(rs, w) && forall i | 0 <= i < |rs| :: Possible(rs[i])
    ensures (TotalGenerated(rs) - |rs|) as real / w <= RateSum(rs)
  {
    if rs != [] {
      var n := |rs| - 1;
      var last := rs[n];
      RateSumStep(rs[..n], w);
      assert Possible(last);
      SplitQuotient((TotalGenerated(rs[..n]) - n) as real, (last.generated - 1) as real, w);
      if last.generated > 1 {
        TpotPositive(last);
        LargerDivisor((last.generated - 1) as real, DecodeS(last), w);
      }
    }
  }

  /** Every request that decodes does so for this long. */
  ghost predicate DecodeThroughout(rs: seq<Request>, w: real) {
    forall i | 0 <= i < |rs| && rs[i].generated > 1 :: DecodeS(rs[i]) == w
  }

  lemma {:induction false} RateSumFilled(rs: seq<Request>, w: real)
    requires w > 0.0 && DecodeThroughout(rs, w) && forall i | 0 <= i < |rs| :: Possible(rs[i])
    ensures RateSum(rs) == (TotalGenerated(rs) - |rs|) as real / w
  {
    if rs != [] {
      var n := |rs| - 1;
      var last := rs[n];
      RateSumFilled(rs[..n], w);
      assert Possible(last);
      SplitQuotient((TotalGenerated(rs[..n]) - n) as real, (last.generated - 1) as real, w);
      if last.generated > 1 {
        TpotPositive(last);
      }
    }
  }

  lemma {:induction false} SplitQuotient(a: real, b: real, w: real)
    requires w > 0.0
    ensures (a + b) / w == a / w + b / w
  {
  }

  /** Whatever the lengths, the observed decode throughput is at most the sum of the rates
      of the single requests, and reaches it if all that decode do so over the whole window. */
  lemma {:induction false} ObservedBelowSumOfRates(ids: seq<int>, rs: seq<Request>, inputTokens: int)
    requires rs != [] && |ids| == |rs| && forall i | 0 <= i < |rs| :: Possible(rs[i])
    ensures var m := MetricsOf(ids, rs);
            var rates := PhaseThroughput(inputTokens, TotalGenerated(rs), |rs|, m.prefillS, m.decodeS);
            && (rates.Success? <==> inputTokens > 0 && m.prefillS > 0.0)
            && (rates.Success? ==>
                  if TotalGenerated(rs) == |rs| then rates.value.decodeTps == None
                  else
                    && rates.value.decodeTps.Some? && rates.value.decodeTps.value <= RateSum(rs)
                    && (DecodeThroughout(rs, Window(rs)) ==> rates.value.decodeTps.value == RateSum(rs)))
  {
    forall i: nat | i < |rs| ensures DecodeS(rs[i]) <= Window(rs) {
      WithinWindow(rs, i);
    }
    SomeDecodes(rs);
    if Window(rs) > 0.0 {
      RateSumStep(rs, Window(rs));
      if DecodeThroughout(rs, Window(rs)) {
        RateSumFilled(rs, Window(rs));
      }
    }
  }

  /** Every request generates a token, and one that generates more takes time for it. */
  lemma {:induction false} SomeDecodes(rs: seq<Request>)
    requires forall i | 0 <= i < |rs| :: Possible(rs[i])
    ensures TotalGenerated(rs) >= |rs|
    ensures TotalGenerated(rs) > |rs| ==> exists i :: 0 <= i < |rs| && DecodeS(rs[i]) > 0.0
  {
    if rs != [] {
      var n := |rs| - 1;
      SomeDecodes(rs[..n]);
      assert Possible(rs[n]);
      if TotalGenerated(rs[..n]) > n {
        var i :| 0 <= i < n && DecodeS(rs[..n][i]) > 0.0;
        assert DecodeS(rs[i]) > 0.0;
      } else if rs[n].generated > 1 {
        assert DecodeS(rs[n]) > 0.0;
      }
    }
  }

  /** With different lengths the promised rate is no bound: one slow short answer beside a
      fast long one. */
  lemma {:induction false} MixedLengthsExceedProxy()
    ensures exists ids: seq<int>, rs: seq<Request> :: |ids| == |rs| && ExceedsProxy(ids, rs)
  {
    var slow, fast := Request(0.0, 1.0, 11.0, 2), Request(0.0, 1.0, 2.0, 101);
    MixedFigures(slow, fast);
    MixedWindow(slow, fast);
    hide Tpots, Window, TotalGenerated, Mean, Project;
    assert Possible(slow) && Possible(fast);
    assert ExceedsProxy([0, 1], [slow, fast]);
  }

  lemma {:induction false} MixedFigures(slow: Request, fast: Request)
    requires slow == Request(0.0, 1.0, 11.0, 2) && fast == Request(0.0, 1.0, 2.0, 101)
    ensures Tpots([slow, fast]) != [] && Mean(Tpots([slow, fast])) == 5005.0
    ensures TotalGenerated([slow, fast]) == 103
  {
    hide *;
    var none: seq<Request> := [];
    TotalsStep(none);
    TotalsStep([slow]);
    TotalsStep([slow, fast]);
    assert [slow, fast][..1] == [slow] && [slow][..0] == none;
    TwoTpots(slow, fast);
    MeanOfTwo(Tpots([slow, fast]));
  }

  lemma {:induction false} TwoTpots(slow: Request, fast: Request)
    requires slow == Request(0.0, 1.0, 11.0, 2) && fast == Request(0.0, 1.0, 2.0, 101)
    ensures Tpot(slow) == 10000.0 && Tpot(fast) == 10.0
  {
  }

  lemma {:induction false} MeanOfTwo(xs: seq<real>)
    requires |xs| == 2 && Sum(xs) == 10010.0
    ensures Mean(xs) == 5005.0
  {
  }

  lemma {:induction false} MixedWindow(slow: Request, fast: Request)
    requires slow == Request(0.0, 1.0, 11.0, 2) && fast == Request(0.0, 1.0, 2.0, 101)
    ensures Window([slow, fast]) == 10.0
    ensures MaxOf(Project([slow, fast], PrefillS)) == 1.0
  {
    assert Project([slow, fast], FinishedAt) == [11.0, 2.0] && Project([slow, fast], FirstAt) == [1.0, 1.0];
    assert Project([slow, fast], PrefillS) == [1.0, 1.0];
  }

  ghost predicate ExceedsProxy(ids: seq<int>, rs: seq<Request>)
    requires |ids| == |rs|
  {
    && rs != [] && (forall i | 0 <= i < |rs| :: Possible(rs[i]))
    && var m := MetricsOf(ids, rs);
    && var proxy := ConcurrencyProxy(|rs|, m.tpotMs);
    && var rates := PhaseThroughput(1, TotalGenerated(rs), |rs|, m.prefillS, m.decodeS);
    && proxy.Success? && proxy.value.Some? && rates.Success? && rates.value.decodeTps.Some?
    && rates.value.decodeTps.value > proxy.value.value
  }
}
