/** What every interleaving of the guard keeps, and what an accepted poll means. */
module GuardTheorems {
  import opened GuardProtocol
  import opened Sequences
  import opened Wrappers

  // ----- The invariant -----

  /** A snapshot of `_states` files every object under its own container id. */
  ghost predicate Filed<R>(cells: map<R, Cell>, m: map<string, R>) {
    forall id | id in m :: m[id] in cells && cells[m[id]].id == id
  }

  /** A registered object is failed only between its `fail` and its `_retire`. */
  ghost predicate RegisteredAreSound<R>(s: Sys<R>)
    requires Filed(s.cells, s.states)
  {
    forall id | id in s.states && s.cells[s.states[id]].failure.Some? ::
      s.pc.Retiring? && s.pc.target == s.states[id]
  }

  /** The failed object whose `docker kill` is still to come. */
  function PendingKill<R>(pc: Pc<R>): seq<R> {
    match pc
    case Retiring(t, newly, _) => if newly then [t] else []
    case Recording(t, _) => [t]
    case Killing(t, _, _) => [t]
    case _ => []
  }

  ghost predicate LogsAgree<R>(s: Sys<R>) {
    && NoDuplicates(s.failed)
    && s.failed == s.kills + PendingKill(s.pc)
    && (forall r | r in s.cells :: s.cells[r].failure.Some? <==> r in s.failed)
    && (forall r | r in s.failed :: r in s.cells)
    && NoDuplicates(s.events)
    && (forall r | r in s.events :: r in s.failed)
    && ((s.pc.Recording? || (s.pc.Retiring? && s.pc.newly)) ==> s.pc.target !in s.events)
  }

  ghost predicate BytesAgree<R>(s: Sys<R>) {
    forall r | r in s.cells ::
      s.cells[r].writableBytes ==
        if s.cells[r].failure.Some? then RecordedBytes(s.cells[r].failure.value) else None
  }

  /** Length of the run of errored polls at the end of the history.  A poll that
      crashed out of `_poll_once` neither extends nor ends the run. */
  function ErrorRun(outcomes: seq<Outcome>): nat {
    if outcomes == [] then 0
    else
      var rest := outcomes[..|outcomes| - 1];
      match outcomes[|outcomes| - 1]
      case ErroredPoll => ErrorRun(rest) + 1
      case CrashedPoll => ErrorRun(rest)
      case _ => 0
  }

  /** The first verdict the records pass on a container: `fail` is sticky, so a
      later record for the same id changes nothing. */
  function FirstVerdict(c: Config, records: seq<Record>, id: string): Option<Failure> {
    if records == [] then None
    else
      var before := FirstVerdict(c, records[..|records| - 1], id);
      var r := records[|records| - 1];
      if before.Some? then before
      else if r.id == id then Verdict(c, r)
      else None
  }

  ghost predicate AcceptedBy<R>(opening: map<string, R>, i: Inspection, middle: Option<map<string, R>>) {
    && i.Completed?
    && if middle.None? then !Suspicious(opening, i)
       else Suspicious(opening, i) && CleanupRace(opening, i, middle.value.Keys)
  }

  /** What was gone at the race check has not come back by `later`. */
  ghost predicate StillGone<R>(opening: map<string, R>, middle: Option<map<string, R>>, later: map<string, R>) {
    middle.Some? ==>
      forall id | id in opening && id in later && opening[id] == later[id] :: id in middle.value
  }

  ghost predicate PollSound<R>(cells: map<R, Cell>, p: Poll<R>) {
    && AcceptedBy(p.opening, p.inspection, p.middle)
    && Filed(cells, p.opening)
    && Filed(cells, p.closing)
    && StillGone(p.opening, p.middle, p.closing)
  }

  /** The first `n` records have been acted on, and nothing else has. */
  ghost predicate Judged<R>(c: Config, cells: map<R, Cell>, p: Poll<R>, n: nat) {
    && PollSound(cells, p)
    && n <= |p.inspection.records|
    && forall id | id in p.closing ::
         cells[p.closing[id]].failure == FirstVerdict(c, p.inspection.records[..n], id)
  }

  /** The first `n` objects have been failed for the monitoring, the others not at all. */
  ghost predicate ClosedUpTo<R>(cells: map<R, Cell>, all: seq<R>, n: nat) {
    && n <= |all|
    && NoDuplicates(all)
    && (forall r | r in all :: r in cells)
    && (forall i | 0 <= i < n :: cells[all[i]].failure == Some(MonitorFailed))
    && (forall i | n <= i < |all| :: cells[all[i]].failure == None)
  }

  /** `_fail_state` is about to run for the record or container just taken up. */
  ghost predicate Underway<R>(c: Config, cells: map<R, Cell>, target: R, f: Failure, k: Continuation<R>) {
    && target in cells
    && match k
       case Scan(p, n) =>
         && 0 < n
         && Judged(c, cells, p, n - 1)
         && n <= |p.inspection.records|
         && var r := p.inspection.records[n - 1];
            r.id in p.closing && p.closing[r.id] == target && Verdict(c, r) == Some(f)
       case Close(all, n, _) =>
         && 0 < n <= |all|
         && all[n - 1] == target && f == MonitorFailed
         && ClosedUpTo(cells, all, n - 1)
  }

  ghost predicate Caught<R>(c: Config, cells: map<R, Cell>, k: Continuation<R>) {
    match k
    case Scan(p, n) => Judged(c, cells, p, n)
    case Close(all, n, _) => ClosedUpTo(cells, all, n)
  }

  ghost predicate PcSound<R>(c: Config, cells: map<R, Cell>, states: map<string, R>, pc: Pc<R>) {
    match pc
    case Waiting => true
    case Inspecting(o) => Filed(cells, o)
    case Checking(o, i) => Filed(cells, o) && i.Completed? && Suspicious(o, i)
    case Accepted(o, i, m) => Filed(cells, o) && AcceptedBy(o, i, m) && StillGone(o, m, states)
    case Scanning(p, n) => Judged(c, cells, p, n)
    case ClosePending(_) => true
    case Closing(all, n, _) => ClosedUpTo(cells, all, n)
    case Failing(t, f, k) => Underway(c, cells, t, f, k)
    case Retiring(t, newly, k) => t in cells && cells[t].failure.Some? && Caught(c, cells, k)
    case Recording(t, k) => t in cells && Caught(c, cells, k)
    case Killing(t, _, k) => t in cells && Caught(c, cells, k)
    case Dead => true
  }

  ghost predicate Inv<R>(c: Config, s: Sys<R>) {
    && Filed(s.cells, s.states)
    && RegisteredAreSound(s)
    && LogsAgree(s)
    && BytesAgree(s)
    && s.monitorFailures == ErrorRun(s.outcomes)
    && PcSound(c, s.cells, s.states, s.pc)
  }

  // ----- Preservation -----

  lemma {:induction false} ErrorRunAppend(outcomes: seq<Outcome>, o: Outcome)
    ensures ErrorRun(outcomes + [o]) ==
            match o
            case ErroredPoll => ErrorRun(outcomes) + 1
            case CrashedPoll => ErrorRun(outcomes)
            case _ => 0
  {
    assert (outcomes + [o])[..|outcomes|] == outcomes;
  }

  lemma {:induction false} FirstVerdictNext(c: Config, records: seq<Record>, n: nat, id: string)
    requires 0 < n <= |records|
    ensures FirstVerdict(c, records[..n], id) ==
            var before := FirstVerdict(c, records[..n - 1], id);
            if before.Some? then before
            else if records[n - 1].id == id then Verdict(c, records[n - 1])
            else None
  {
    assert records[..n][..n - 1] == records[..n - 1];
  }

  ghost predicate LeftAlone<R>(s: Sys<R>, t: Sys<R>) {
    t.cells == s.cells && t.states == s.states && t.failed == s.failed && !s.pc.Retiring?
  }

  lemma {:induction false} PollingLeavesObjects<R>(c: Config, s: Sys<R>, l: Label<R>)
    requires Enabled(c, s, l)
    requires l.OpenPoll? || l.AcceptPoll? || l.ScanNext?
    ensures LeftAlone(s, Apply(c, s, l))
  {
  }

  lemma {:induction false} InspectionLeavesObjects<R>(c: Config, s: Sys<R>, l: Label<R>)
    requires Enabled(c, s, l)
    requires l.Inspect?
    ensures LeftAlone(s, Apply(c, s, l))
  {
  }

  lemma {:induction false} RaceCheckLeavesObjects<R>(c: Config, s: Sys<R>, l: Label<R>)
    requires Enabled(c, s, l)
    requires l.CheckRace?
    ensures LeftAlone(s, Apply(c, s, l))
  {
  }

  lemma {:induction false} ClosingLeavesObjects<R>(c: Config, s: Sys<R>, l: Label<R>)
    requires Enabled(c, s, l)
    requires l.OpenClosing? || l.CloseNext?
    ensures LeftAlone(s, Apply(c, s, l))
  {
  }

  lemma {:induction false} KillingLeavesObjects<R>(c: Config, s: Sys<R>, l: Label<R>)
    requires Enabled(c, s, l)
    requires l.AppendEvent? || l.Kill?
    ensures LeftAlone(s, Apply(c, s, l))
  {
  }

  /** The steps that neither agents nor `fail` and `_retire` take. */
  lemma {:induction false} LeavesObjects<R>(c: Config, s: Sys<R>, l: Label<R>)
    requires Enabled(c, s, l)
    requires !l.Register? && !l.Unregister? && !l.Fail? && !l.Retire?
    ensures LeftAlone(s, Apply(c, s, l))
  {
    hide *;
    match l
    case OpenPoll => PollingLeavesObjects(c, s, l);
    case AcceptPoll => PollingLeavesObjects(c, s, l);
    case ScanNext => PollingLeavesObjects(c, s, l);
    case Inspect(_) => InspectionLeavesObjects(c, s, l);
    case CheckRace => RaceCheckLeavesObjects(c, s, l);
    case OpenClosing(_) => ClosingLeavesObjects(c, s, l);
    case CloseNext => ClosingLeavesObjects(c, s, l);
    case AppendEvent(_) => KillingLeavesObjects(c, s, l);
    case Kill(_) => KillingLeavesObjects(c, s, l);
  }

  lemma {:induction false} RegistryKeptByAgents<R>(c: Config, s: Sys<R>, l: Label<R>)
    requires Inv(c, s) && Enabled(c, s, l)
    requires l.Register? || l.Unregister?
    ensures var t := Apply(c, s, l); Filed(t.cells, t.states) && RegisteredAreSound(t)
  {
  }

  lemma {:induction false} RegistryKeptByFailure<R>(c: Config, s: Sys<R>, l: Label<R>)
    requires Inv(c, s) && Enabled(c, s, l)
    requires l.Fail? || l.Retire?
    ensures var t := Apply(c, s, l); Filed(t.cells, t.states) && RegisteredAreSound(t)
  {
  }

  lemma {:induction false} RegistryKept<R>(c: Config, s: Sys<R>, l: Label<R>)
    requires Inv(c, s) && Enabled(c, s, l)
    ensures var t := Apply(c, s, l); Filed(t.cells, t.states) && RegisteredAreSound(t)
  {
    if l.Register? || l.Unregister? {
      RegistryKeptByAgents(c, s, l);
    } else if l.Fail? || l.Retire? {
      RegistryKeptByFailure(c, s, l);
    } else {
      LeavesObjects(c, s, l);
    }
  }

  lemma {:induction false} LogsKeptByAgents<R>(c: Config, s: Sys<R>, l: Label<R>)
    requires Inv(c, s) && Enabled(c, s, l)
    requires l.Register? || l.Unregister?
    ensures var t := Apply(c, s, l); LogsAgree(t) && BytesAgree(t)
  {
    var t := Apply(c, s, l);
    assert forall r | r in s.cells :: r in t.cells && t.cells[r] == s.cells[r];
  }

  lemma {:induction false} LogsKeptByFail<R>(c: Config, s: Sys<R>)
    requires Inv(c, s) && Enabled(c, s, Fail)
    ensures var t := Apply(c, s, Fail); LogsAgree(t) && BytesAgree(t)
  {
    var t := Apply(c, s, Fail);
    var x := s.pc.target;
    assert forall r | r in s.cells && r != x :: t.cells[r] == s.cells[r];
    if s.cells[x].failure.None? {
      assert x !in s.failed;
      assert forall r :: r in t.failed <==> r in s.failed || r == x;
    }
  }

  lemma {:induction false} LogsKeptByKill<R>(c: Config, s: Sys<R>, raises: bool)
    requires Inv(c, s) && Enabled(c, s, Kill(raises))
    ensures var t := Apply(c, s, Kill(raises)); LogsAgree(t) && BytesAgree(t)
  {
    assert PendingKill(Resume(s.pc.cont)) == PendingKill(Unwind(s.pc.cont)) == [];
  }

  lemma {:induction false} LogsKeptByEvent<R>(c: Config, s: Sys<R>, raises: bool)
    requires Inv(c, s) && Enabled(c, s, AppendEvent(raises))
    ensures var t := Apply(c, s, AppendEvent(raises)); LogsAgree(t) && BytesAgree(t)
  {
    assert s.pc.target == s.failed[|s.failed| - 1];
  }

  lemma {:induction false} LogsKeptByRetire<R>(c: Config, s: Sys<R>)
    requires Inv(c, s) && Enabled(c, s, Retire)
    ensures var t := Apply(c, s, Retire); LogsAgree(t) && BytesAgree(t)
  {
  }

  /** Steps outside `_fail_state` leave the logs alone. */
  lemma {:induction false} LeavesLogs<R>(c: Config, s: Sys<R>, l: Label<R>)
    requires Enabled(c, s, l)
    requires !l.Register? && !l.Unregister? && !l.Fail? && !l.Retire? && !l.AppendEvent? && !l.Kill?
    ensures var t := Apply(c, s, l);
            && t.events == s.events && t.kills == s.kills
            && PendingKill(t.pc) == PendingKill(s.pc) == []
            && !t.pc.Recording? && !t.pc.Retiring?
  {
  }

  lemma {:induction false} LogsAgreeUnchanged<R>(s: Sys<R>, t: Sys<R>)
    requires LogsAgree(s) && BytesAgree(s)
    requires t.cells == s.cells && t.failed == s.failed && t.events == s.events && t.kills == s.kills
    requires PendingKill(t.pc) == PendingKill(s.pc) && !t.pc.Recording? && !t.pc.Retiring?
    ensures LogsAgree(t) && BytesAgree(t)
  {
  }

  lemma {:induction false} LogsKept<R>(c: Config, s: Sys<R>, l: Label<R>)
    requires Inv(c, s) && Enabled(c, s, l)
    ensures var t := Apply(c, s, l); LogsAgree(t) && BytesAgree(t)
  {
    if l.Register? || l.Unregister? { LogsKeptByAgents(c, s, l); }
    else if l.Fail? { LogsKeptByFail(c, s); }
    else if l.AppendEvent? { LogsKeptByEvent(c, s, l.raises); }
    else if l.Kill? { LogsKeptByKill(c, s, l.raises); }
    else if l.Retire? { LogsKeptByRetire(c, s); }
    else {
      LeavesObjects(c, s, l);
      LeavesLogs(c, s, l);
      LogsAgreeUnchanged(s, Apply(c, s, l));
    }
  }

  lemma {:induction false} CounterKeptByOutcome<R>(c: Config, s: Sys<R>, l: Label<R>)
    requires s.monitorFailures == ErrorRun(s.outcomes) && Enabled(c, s, l)
    requires l.OpenPoll? || l.AcceptPoll?
    ensures var t := Apply(c, s, l); t.monitorFailures == ErrorRun(t.outcomes)
  {
    ErrorRunAppend(s.outcomes, EmptyPoll);
    ErrorRunAppend(s.outcomes, AcceptedPoll);
  }

  lemma {:induction false} CounterKeptByInspect<R>(c: Config, s: Sys<R>, l: Label<R>)
    requires s.monitorFailures == ErrorRun(s.outcomes) && Enabled(c, s, l) && l.Inspect?
    ensures var t := Apply(c, s, l); t.monitorFailures == ErrorRun(t.outcomes)
  {
    ErrorRunAppend(s.outcomes, ErroredPoll);
    ErrorRunAppend(s.outcomes, CrashedPoll);
  }

  lemma {:induction false} CounterKeptByRaceCheck<R>(c: Config, s: Sys<R>)
    requires s.monitorFailures == ErrorRun(s.outcomes) && Enabled(c, s, CheckRace)
    ensures var t := Apply(c, s, CheckRace); t.monitorFailures == ErrorRun(t.outcomes)
  {
    hide CleanupRace;
    ErrorRunAppend(s.outcomes, ErroredPoll);
  }

  lemma {:induction false} LeavesCounter<R>(c: Config, s: Sys<R>, l: Label<R>)
    requires Enabled(c, s, l)
    requires !l.OpenPoll? && !l.AcceptPoll? && !l.Inspect? && !l.CheckRace?
    ensures var t := Apply(c, s, l); t.monitorFailures == s.monitorFailures && t.outcomes == s.outcomes
  {
  }

  lemma {:induction false} CounterKept<R>(c: Config, s: Sys<R>, l: Label<R>)
    requires Inv(c, s) && Enabled(c, s, l)
    ensures var t := Apply(c, s, l); t.monitorFailures == ErrorRun(t.outcomes)
  {
    hide Apply, Enabled, ErrorRun;
    if l.OpenPoll? || l.AcceptPoll? { CounterKeptByOutcome(c, s, l); }
    else if l.Inspect? { CounterKeptByInspect(c, s, l); }
    else if l.CheckRace? { CounterKeptByRaceCheck(c, s); }
    else { LeavesCounter(c, s, l); }
  }

  /** Objects registered later do not disturb what is known of the earlier ones. */
  lemma {:induction false} CaughtExtends<R>(c: Config, cells: map<R, Cell>, more: map<R, Cell>, k: Continuation<R>)
    requires forall r | r in cells :: r in more && more[r] == cells[r]
    ensures Caught(c, cells, k) ==> Caught(c, more, k)
  {
  }

  lemma {:induction false} UnderwayExtends<R>(c: Config, cells: map<R, Cell>, more: map<R, Cell>, t: R, f: Failure, k: Continuation<R>)
    requires Underway(c, cells, t, f, k)
    requires forall r | r in cells :: r in more && more[r] == cells[r]
    ensures Underway(c, more, t, f, k)
  {
    match k
    case Scan(p, n) => CaughtExtends(c, cells, more, Scan(p, n - 1));
    case Close(all, n, o) => CaughtExtends(c, cells, more, Close(all, n - 1, o));
  }

  lemma {:induction false} PcExtends<R>(c: Config, cells: map<R, Cell>, more: map<R, Cell>, states: map<string, R>, pc: Pc<R>)
    requires PcSound(c, cells, states, pc)
    requires forall r | r in cells :: r in more && more[r] == cells[r]
    ensures PcSound(c, more, states, pc)
  {
    match pc
    case Retiring(_, _, k) => CaughtExtends(c, cells, more, k);
    case Recording(_, k) => CaughtExtends(c, cells, more, k);
    case Killing(_, _, k) => CaughtExtends(c, cells, more, k);
    case Scanning(p, n) => CaughtExtends(c, cells, more, Scan(p, n));
    case Closing(all, n, o) => CaughtExtends(c, cells, more, Close(all, n, o));
    case Failing(t, f, k) => UnderwayExtends(c, cells, more, t, f, k);
    case _ =>
  }

  lemma {:induction false} PcKeptByAgents<R>(c: Config, s: Sys<R>, l: Label<R>)
    requires Filed(s.cells, s.states) && PcSound(c, s.cells, s.states, s.pc) && Enabled(c, s, l)
    requires l.Register? || l.Unregister?
    ensures var t := Apply(c, s, l); PcSound(c, t.cells, t.states, t.pc)
  {
    hide Judged, Caught, Underway, ClosedUpTo, AcceptedBy, Suspicious;
    var t := Apply(c, s, l);
    AgentsAddOnly(c, s, l);
    assert PcSound(c, s.cells, t.states, s.pc);
    PcExtends(c, s.cells, t.cells, t.states, s.pc);
  }

  lemma {:induction false} AgentsAddOnly<R>(c: Config, s: Sys<R>, l: Label<R>)
    requires Enabled(c, s, l) && (l.Register? || l.Unregister?)
    ensures var t := Apply(c, s, l);
            && t.pc == s.pc && (forall r | r in s.cells :: r in t.cells && t.cells[r] == s.cells[r])
            && (forall id | id in t.states && t.states[id] in s.cells :: id in s.states && t.states[id] == s.states[id])
  {
  }

  /** Failing the container of record `n - 1` brings the judging one record further. */
  lemma {:induction false} JudgedNext<R>(c: Config, cells: map<R, Cell>, p: Poll<R>, n: nat, x: R, f: Failure)
    requires Underway(c, cells, x, f, Scan(p, n))
    ensures Judged(c, cells[x := FailOnce(cells[x], f)], p, n)
  {
    var after := cells[x := FailOnce(cells[x], f)];
    assert PollSound(after, p);
    forall id | id in p.closing
      ensures after[p.closing[id]].failure == FirstVerdict(c, p.inspection.records[..n], id)
    {
      FirstVerdictNext(c, p.inspection.records, n, id);
      if p.closing[id] == x {
        assert id == p.inspection.records[n - 1].id;
      }
    }
  }

  lemma {:induction false} ClosedNext<R>(cells: map<R, Cell>, all: seq<R>, n: nat)
    requires 0 < n <= |all| && ClosedUpTo(cells, all, n - 1)
    ensures ClosedUpTo(cells[all[n - 1] := FailOnce(cells[all[n - 1]], MonitorFailed)], all, n)
  {
  }

  lemma {:induction false} CaughtAfterFail<R>(c: Config, cells: map<R, Cell>, x: R, f: Failure, k: Continuation<R>)
    requires Underway(c, cells, x, f, k)
    ensures Caught(c, cells[x := FailOnce(cells[x], f)], k)
  {
    match k
    case Scan(p, n) => JudgedNext(c, cells, p, n, x, f);
    case Close(all, n, _) => ClosedNext(cells, all, n);
  }

  lemma {:induction false} PcKeptByFail<R>(c: Config, s: Sys<R>)
    requires PcSound(c, s.cells, s.states, s.pc) && Enabled(c, s, Fail)
    ensures var t := Apply(c, s, Fail); PcSound(c, t.cells, t.states, t.pc)
  {
    CaughtAfterFail(c, s.cells, s.pc.target, s.pc.failure, s.pc.cont);
  }

  /** A record without a verdict on the closing snapshot is passed over. */
  lemma {:induction false} JudgedSkip<R>(c: Config, cells: map<R, Cell>, p: Poll<R>, n: nat)
    requires Judged(c, cells, p, n) && n < |p.inspection.records|
    requires var r := p.inspection.records[n]; r.id in p.closing ==> Verdict(c, r).None?
    ensures Judged(c, cells, p, n + 1)
  {
    forall id | id in p.closing
      ensures cells[p.closing[id]].failure == FirstVerdict(c, p.inspection.records[..n + 1], id)
    {
      FirstVerdictNext(c, p.inspection.records, n + 1, id);
    }
  }

  lemma {:induction false} ScanStepSound<R>(c: Config, cells: map<R, Cell>, states: map<string, R>, p: Poll<R>, n: nat)
    requires Judged(c, cells, p, n)
    ensures PcSound(c, cells, states, ScanStep(c, p, n))
  {
    var records := p.inspection.records;
    if n < |records| {
      if records[n].id in p.closing && Verdict(c, records[n]).Some? {
        var f := Verdict(c, records[n]).value;
        assert Underway(c, cells, p.closing[records[n].id], f, Scan(p, n + 1));
      } else {
        JudgedSkip(c, cells, p, n);
      }
    }
  }

  lemma {:induction false} PcKeptByScan<R>(c: Config, s: Sys<R>)
    requires PcSound(c, s.cells, s.states, s.pc) && Enabled(c, s, ScanNext)
    ensures var t := Apply(c, s, ScanNext); PcSound(c, t.cells, t.states, t.pc)
  {
    ScanStepSound(c, s.cells, s.states, s.pc.poll, s.pc.next);
  }

  lemma {:induction false} PcKeptByInspect<R>(c: Config, s: Sys<R>, l: Label<R>)
    requires Filed(s.cells, s.states) && PcSound(c, s.cells, s.states, s.pc) && Enabled(c, s, l)
    requires l.OpenPoll? || l.Inspect?
    ensures var t := Apply(c, s, l); PcSound(c, t.cells, t.states, t.pc)
  {
    hide Judged, Verdict, Filed, Suspicious, CleanupRace;
  }

  lemma {:induction false} PcKeptByRaceCheck<R>(c: Config, s: Sys<R>)
    requires Inv(c, s) && Enabled(c, s, CheckRace)
    ensures var t := Apply(c, s, CheckRace); PcSound(c, t.cells, t.states, t.pc)
  {
  }

  lemma {:induction false} PcKeptByAccept<R>(c: Config, s: Sys<R>)
    requires Inv(c, s) && Enabled(c, s, AcceptPoll)
    ensures var t := Apply(c, s, AcceptPoll); PcSound(c, t.cells, t.states, t.pc)
  {
    var p := Apply(c, s, AcceptPoll).pc.poll;
    assert p.inspection.records[..0] == [];
    assert PollSound(s.cells, p);
  }

  lemma {:induction false} PcKeptByClosing<R>(c: Config, s: Sys<R>, l: Label<R>)
    requires Inv(c, s) && Enabled(c, s, l)
    requires l.OpenClosing? || l.CloseNext?
    ensures var t := Apply(c, s, l); PcSound(c, t.cells, t.states, t.pc)
  {
    if l.OpenClosing? {
      EnumeratedOnce(s.cells, s.states, l.order);
    }
  }

  /** The registry has no object twice, so neither has a list of its objects. */
  lemma {:induction false} EnumeratedOnce<R>(cells: map<R, Cell>, states: map<string, R>, order: seq<R>)
    requires Filed(cells, states) && Enumerates(order, states)
    ensures NoDuplicates(order)
  {
    ValuesCount(cells, states);
    var values := set r | r in order;
    assert values == states.Values;
    FewerValues(order);
  }

  lemma {:induction false} ValuesCount<R>(cells: map<R, Cell>, states: map<string, R>)
    requires Filed(cells, states)
    ensures |states.Values| == |states|
  {
    if states != map[] {
      var id :| id in states;
      var rest := states - {id};
      ValuesCount(cells, rest);
      assert states[id] !in rest.Values;
      forall r ensures r in states.Values <==> r in rest.Values + {states[id]} {
        if r in states.Values && r != states[id] {
          var k :| k in states && states[k] == r;
          assert rest[k] == r;
        }
      }
      assert states.Values == rest.Values + {states[id]};
      assert states.Keys == rest.Keys + {id};
    }
  }

  lemma {:induction false} FewerValues<R>(xs: seq<R>)
    ensures |set x | x in xs| <= |xs|
    ensures |set x | x in xs| == |xs| ==> NoDuplicates(xs)
  {
    if xs != [] {
      var n := |xs| - 1;
      var front, all := set x | x in xs[..n], set x | x in xs;
      FewerValues(xs[..n]);
      assert xs == xs[..n] + [xs[n]];
      assert all == front + {xs[n]};
      if xs[n] in front {
        assert all == front;
      }
    }
  }

  lemma {:induction false} PcKeptByRecording<R>(c: Config, s: Sys<R>, l: Label<R>)
    requires Inv(c, s) && Enabled(c, s, l)
    requires l.Retire? || l.AppendEvent? || l.Kill?
    ensures var t := Apply(c, s, l); PcSound(c, t.cells, t.states, t.pc)
  {
    assert Apply(c, s, l).cells == s.cells;
  }

  lemma {:induction false} PcKept<R>(c: Config, s: Sys<R>, l: Label<R>)
    requires Inv(c, s) && Enabled(c, s, l)
    ensures var t := Apply(c, s, l); PcSound(c, t.cells, t.states, t.pc)
  {
    if l.Register? || l.Unregister? { PcKeptByAgents(c, s, l); }
    else if l.Fail? { PcKeptByFail(c, s); }
    else if l.ScanNext? { PcKeptByScan(c, s); }
    else if l.AcceptPoll? { PcKeptByAccept(c, s); }
    else if l.OpenClosing? || l.CloseNext? { PcKeptByClosing(c, s, l); }
    else if l.OpenPoll? || l.Inspect? { PcKeptByInspect(c, s, l); }
    else if l.CheckRace? { PcKeptByRaceCheck(c, s); }
    else { PcKeptByRecording(c, s, l); }
  }

  lemma {:induction false} InvKept<R>(c: Config, s: Sys<R>, l: Label<R>)
    requires Inv(c, s) && Enabled(c, s, l)
    ensures Inv(c, Apply(c, s, l))
  {
    RegistryKept(c, s, l);
    LogsKept(c, s, l);
    CounterKept(c, s, l);
    PcKept(c, s, l);
  }

  // ----- Every run -----

  lemma {:induction false} RunKeepsInv<R>(c: Config, s: Sys<R>, ls: seq<Label<R>>, t: Sys<R>)
    requires Inv(c, s) && Run(c, s, ls, t)
    ensures Inv(c, t)
    decreases |ls|
  {
    if ls != [] {
      InvKept(c, s, ls[0]);
      RunKeepsInv(c, Apply(c, s, ls[0]), ls[1..], t);
    }
  }

  lemma {:induction false} ReachableInv<R>(c: Config, ls: seq<Label<R>>, t: Sys<R>)
    requires Run(c, Initial(), ls, t)
    ensures Inv(c, t)
  {
    RunKeepsInv(c, Initial(), ls, t);
  }

  lemma {:induction false} FailureIsFinalStep<R>(c: Config, s: Sys<R>, l: Label<R>, r: R)
    requires Enabled(c, s, l) && r in s.cells
    ensures var t := Apply(c, s, l);
            && r in t.cells && t.cells[r].id == s.cells[r].id && t.cells[r].image == s.cells[r].image
            && (s.cells[r].failure.Some? ==> t.cells[r] == s.cells[r])
  {
    match l
    case Register(_, _, _) =>
    case Unregister(_) =>
    case Fail =>
    case Retire =>
    case _ => LeavesObjects(c, s, l);
  }

  /** `failure` is written at most once: a failed object never changes again, so
      every later `raise_if_failed` raises the same error. */
  lemma {:induction false} FailureIsFinal<R>(c: Config, s: Sys<R>, ls: seq<Label<R>>, t: Sys<R>, r: R)
    requires Run(c, s, ls, t) && r in s.cells
    ensures r in t.cells && t.cells[r].id == s.cells[r].id && t.cells[r].image == s.cells[r].image
    ensures s.cells[r].failure.Some? ==> t.cells[r] == s.cells[r]
    decreases |ls|
  {
    if ls != [] {
      FailureIsFinalStep(c, s, ls[0], r);
      FailureIsFinal(c, Apply(c, s, ls[0]), ls[1..], t, r);
    }
  }

  /** One kill per failure and at most one event, over every run.  While the guard
      is between a failure and its kill, that one kill is outstanding. */
  lemma {:induction false} OneKillPerFailure<R>(c: Config, ls: seq<Label<R>>, t: Sys<R>)
    requires Run(c, Initial(), ls, t)
    ensures NoDuplicates(t.kills) && NoDuplicates(t.events)
    ensures forall r | r in t.kills + t.events :: r in t.cells && t.cells[r].failure.Some?
    ensures forall r | r in t.cells && t.cells[r].failure.Some? :: r in t.kills || r in PendingKill(t.pc)
    ensures forall r | r in PendingKill(t.pc) :: r !in t.kills
  {
    ReachableInv(c, ls, t);
    assert forall i | 0 <= i < |t.kills| :: t.failed[i] == t.kills[i];
    assert forall i | 0 <= i < |PendingKill(t.pc)| :: t.failed[|t.kills| + i] == PendingKill(t.pc)[i];
  }

  /** The bytes recorded are those of an exceeded limit. */
  lemma {:induction false} BytesOfFailure<R>(c: Config, ls: seq<Label<R>>, t: Sys<R>, r: R)
    requires Run(c, Initial(), ls, t) && r in t.cells
    ensures forall b: int :: t.cells[r].writableBytes == Some(b) <==> t.cells[r].failure == Some(LimitExceeded(b))
  {
    ReachableInv(c, ls, t);
  }

  /** The object has been failed, and the guard is past writing its event. */
  ghost predicate EventSettled<R>(s: Sys<R>, x: R) {
    && x in s.cells && s.cells[x].failure.Some?
    && !(s.pc.Recording? && s.pc.target == x)
    && !(s.pc.Retiring? && s.pc.newly && s.pc.target == x)
  }

  lemma {:induction false} EventSettledStep<R>(c: Config, s: Sys<R>, l: Label<R>, x: R)
    requires Inv(c, s) && Enabled(c, s, l) && EventSettled(s, x)
    ensures EventSettled(Apply(c, s, l), x)
    ensures x in Apply(c, s, l).events <==> x in s.events
  {
    hide PcSound, Filed, RegisteredAreSound, BytesAgree, LogsAgree, ErrorRun, Suspicious, CleanupRace;
    FailureIsFinalStep(c, s, l, x);
    if l.Fail? || l.Retire? || l.AppendEvent? {
    } else if l.Register? || l.Unregister? {
    } else if l.Kill? {
    } else {
      LeavesLogs(c, s, l);
    }
  }

  lemma {:induction false} EventSettledRun<R>(c: Config, s: Sys<R>, ls: seq<Label<R>>, t: Sys<R>, x: R)
    requires Inv(c, s) && Run(c, s, ls, t) && EventSettled(s, x)
    ensures x in t.events <==> x in s.events
    decreases |ls|
  {
    if ls != [] {
      hide Apply, Enabled, Inv, EventSettled;
      InvKept(c, s, ls[0]);
      EventSettledStep(c, s, ls[0], x);
      EventSettledRun(c, Apply(c, s, ls[0]), ls[1..], t, x);
    }
  }

  /** The event of a failed object is in the log, from the time it is written and over every
      further run, unless writing it raised. */
  lemma {:induction false} EventUnlessRaised<R>(c: Config, before: seq<Label<R>>, s: Sys<R>, raises: bool,
                                                after: seq<Label<R>>, t: Sys<R>)
    requires Run(c, Initial(), before, s) && Enabled(c, s, AppendEvent(raises))
    requires Run(c, Apply(c, s, AppendEvent(raises)), after, t)
    ensures s.pc.target in t.events <==> !raises
  {
    ReachableInv(c, before, s);
    InvKept(c, s, AppendEvent(raises));
    WrittenNow(c, s, raises);
    EventSettledRun(c, Apply(c, s, AppendEvent(raises)), after, t, s.pc.target);
  }

  lemma {:induction false} WrittenNow<R>(c: Config, s: Sys<R>, raises: bool)
    requires Inv(c, s) && Enabled(c, s, AppendEvent(raises))
    ensures var t := Apply(c, s, AppendEvent(raises));
            EventSettled(t, s.pc.target) && (s.pc.target in t.events <==> !raises)
  {
    hide Filed, RegisteredAreSound, BytesAgree, ErrorRun, Caught;
    assert s.pc.target == s.failed[|s.failed| - 1];
  }

  /** Between `fail` and `_retire` apart, no registered container is failed. */
  lemma {:induction false} RegisteredAreHealthy<R>(c: Config, ls: seq<Label<R>>, t: Sys<R>, id: string)
    requires Run(c, Initial(), ls, t)
    requires id in t.states && !t.pc.Retiring?
    ensures t.states[id] in t.cells
    ensures t.cells[t.states[id]] == Cell(id, t.cells[t.states[id]].image, None, None)
  {
    ReachableInv(c, ls, t);
  }

  /** A registration ends only when its agent unregisters the id or when the guard
      has failed that very object.  In particular, retiring a failed object leaves
      alone another object registered under the same id. */
  lemma {:induction false} RegistrationEnds<R>(c: Config, s: Sys<R>, l: Label<R>, id: string)
    requires Inv(c, s) && Enabled(c, s, l) && id in s.states
    ensures var t := Apply(c, s, l);
            (id !in t.states || t.states[id] != s.states[id]) <==>
            l == Unregister(id) || (l.Retire? && s.pc.target == s.states[id])
    ensures l.Retire? && s.pc.target == s.states[id] ==> s.cells[s.states[id]].failure.Some?
  {
  }

  // ----- The failure counter -----

  ghost predicate ThresholdHolds<R>(c: Config, s: Sys<R>, t: Sys<R>) {
    (t.pc == ClosePending(false) && s.pc != ClosePending(false)) <==>
    (t.outcomes == s.outcomes + [ErroredPoll] && ErrorRun(t.outcomes) >= c.maxMonitorFailures)
  }

  lemma {:induction false} ThresholdAtError<R>(c: Config, s: Sys<R>)
    requires s.monitorFailures == ErrorRun(s.outcomes) && s.pc != ClosePending(false)
    ensures ThresholdHolds(c, s, PollError(c, s))
  {
    ErrorRunAppend(s.outcomes, ErroredPoll);
  }

  lemma {:induction false} ThresholdElsewhere<R>(c: Config, s: Sys<R>, t: Sys<R>)
    requires t.pc == ClosePending(false) ==> s.pc == ClosePending(false)
    requires t.outcomes == s.outcomes || exists o :: o != ErroredPoll && t.outcomes == s.outcomes + [o]
    ensures ThresholdHolds(c, s, t)
  {
    if t.outcomes != s.outcomes {
      assert t.outcomes[|s.outcomes|] != ErroredPoll;
    }
  }

  lemma {:induction false} ThresholdStep<R>(c: Config, s: Sys<R>, l: Label<R>)
    requires s.monitorFailures == ErrorRun(s.outcomes) && Enabled(c, s, l)
    ensures ThresholdHolds(c, s, Apply(c, s, l))
  {
    var t := Apply(c, s, l);
    match l {
      case Inspect(answer) =>
        if answer == Raised(true) {
          ThresholdAtError(c, s);
        } else if answer == Raised(false) {
          assert t.outcomes == s.outcomes + [CrashedPoll];
          ThresholdElsewhere(c, s, t);
        } else {
          ThresholdElsewhere(c, s, t);
        }
      case CheckRace =>
        if t.pc.Accepted? {
          ThresholdElsewhere(c, s, t);
        } else {
          ThresholdAtError(c, s);
        }
      case OpenPoll => ThresholdElsewhere(c, s, t);
      case AcceptPoll => ThresholdElsewhere(c, s, t);
      case _ => ThresholdElsewhere(c, s, t);
    }
  }

  /** Fail-closed after a handled error starts exactly on the errored poll that
      brings the run of errored polls to the limit or beyond. */
  lemma {:induction false} FailClosedThreshold<R>(c: Config, ls: seq<Label<R>>, s: Sys<R>, l: Label<R>)
    requires Run(c, Initial(), ls, s) && Enabled(c, s, l)
    ensures ThresholdHolds(c, s, Apply(c, s, l))
    ensures var t := Apply(c, s, l); t.monitorFailures == ErrorRun(t.outcomes)
  {
    ReachableInv(c, ls, s);
    ThresholdStep(c, s, l);
    CounterKept(c, s, l);
  }

  /** Fail-closed reaches everything that was registered when it took its snapshot. */
  lemma {:induction false} FailClosedIsComplete<R>(c: Config, s: Sys<R>, order: seq<R>, ls: seq<Label<R>>, t: Sys<R>, id: string)
    requires Inv(c, s) && Enabled(c, s, OpenClosing(order))
    requires Run(c, Apply(c, s, OpenClosing(order)), ls, t)
    requires t.pc.Closing? && t.pc.all == order && t.pc.next == |order|
    requires id in s.states
    ensures s.states[id] in t.cells && t.cells[s.states[id]].failure == Some(MonitorFailed)
  {
    hide Run, Apply, CleanupRace;
    InvKept(c, s, OpenClosing(order));
    RunKeepsInv(c, Apply(c, s, OpenClosing(order)), ls, t);
    var i :| 0 <= i < |order| && order[i] == s.states[id];
  }

  // ----- After the guard's death -----

  lemma {:induction false} DeadIsFinalStep<R>(c: Config, s: Sys<R>, l: Label<R>)
    requires Enabled(c, s, l) && s.pc.Dead?
    ensures l.Register? || l.Unregister?
    ensures var t := Apply(c, s, l);
            && t.pc == Dead && t.failed == s.failed && t.events == s.events && t.kills == s.kills
            && t.outcomes == s.outcomes
            && (forall r | r in s.cells :: r in t.cells && t.cells[r] == s.cells[r])
            && (forall r | r in t.cells && r !in s.cells :: t.cells[r].failure == None)
            && (forall id | id in s.states && l != Unregister(id) :: id in t.states && t.states[id] == s.states[id])
  {
  }

  /** Once the guard thread is dead it stays so: over every further run only agents act,
      nothing is failed, logged, killed or polled any more, no registration ends but by its
      agent, and whatever is registered from then on is never failed. */
  lemma {:induction false} DeadIsFinal<R>(c: Config, s: Sys<R>, ls: seq<Label<R>>, t: Sys<R>)
    requires Run(c, s, ls, t) && s.pc.Dead?
    ensures forall i | 0 <= i < |ls| :: ls[i].Register? || ls[i].Unregister?
    ensures t.pc == Dead && t.failed == s.failed && t.events == s.events && t.kills == s.kills
    ensures t.outcomes == s.outcomes
    ensures forall r | r in s.cells :: r in t.cells && t.cells[r] == s.cells[r]
    ensures forall r | r in t.cells && r !in s.cells :: t.cells[r].failure == None
    ensures forall id | id in s.states && Unregister(id) !in ls :: id in t.states && t.states[id] == s.states[id]
    decreases |ls|
  {
    if ls != [] {
      hide Apply, Enabled;
      DeadIsFinalStep(c, s, ls[0]);
      DeadIsFinal(c, Apply(c, s, ls[0]), ls[1..], t);
      assert ls == [ls[0]] + ls[1..];
    }
  }

  /** Recording or killing raises while the handler of `_run` fails everything. */
  ghost predicate FailsInHandler<R>(s: Sys<R>, l: Label<R>) {
    && l.Kill? && s.pc.Killing? && (s.pc.raised || l.raises)
    && s.pc.cont.Close? && s.pc.cont.outermost
  }

  lemma {:induction false} DiesAtStep<R>(c: Config, s: Sys<R>, l: Label<R>)
    requires Enabled(c, s, l) && !s.pc.Dead?
    ensures Apply(c, s, l).pc.Dead? <==> FailsInHandler(s, l)
  {
    hide CleanupRace;
  }

  /** It happens at some step of the run. */
  ghost predicate EverFailsInHandler<R>(c: Config, s: Sys<R>, ls: seq<Label<R>>)
    decreases |ls|
  {
    ls != [] && Enabled(c, s, ls[0]) &&
    (FailsInHandler(s, ls[0]) || EverFailsInHandler(c, Apply(c, s, ls[0]), ls[1..]))
  }

  lemma {:induction false} DiesOnTheWay<R>(c: Config, s: Sys<R>, ls: seq<Label<R>>, t: Sys<R>)
    requires Run(c, s, ls, t) && !s.pc.Dead?
    ensures t.pc.Dead? <==> EverFailsInHandler(c, s, ls)
    decreases |ls|
  {
    if ls != [] {
      hide Apply, Enabled, FailsInHandler;
      var s1 := Apply(c, s, ls[0]);
      DiesAtStep(c, s, ls[0]);
      if s1.pc.Dead? {
        DeadIsFinal(c, s1, ls[1..], t);
      } else {
        DiesOnTheWay(c, s1, ls[1..], t);
      }
    }
  }

  /** After any run the guard thread is dead exactly if somewhere on the way recording or
      killing raised inside the handler of its loop: nothing else ends it. */
  lemma {:induction false} GuardDiesOnlyInHandler<R>(c: Config, ls: seq<Label<R>>, t: Sys<R>)
    requires Run(c, Initial(), ls, t)
    ensures t.pc.Dead? <==> EverFailsInHandler(c, Initial(), ls)
  {
    DiesOnTheWay(c, Initial(), ls, t);
  }

  lemma {:induction false} RunOn<R>(c: Config, s: Sys<R>, l: Label<R>, ls: seq<Label<R>>, t: Sys<R>)
    requires Enabled(c, s, l) && Run(c, Apply(c, s, l), ls, t)
    ensures Run(c, s, [l] + ls, t)
  {
    assert ([l] + ls)[1..] == ls;
  }

  lemma {:induction false} RunNowhere<R>(c: Config, s: Sys<R>)
    ensures Run(c, s, [], s)
  {
  }

  /** It does happen, with a single container: the poll ends in an exception that it does not
      handle, the handler fails the container, and the event cannot be written. */
  lemma {:induction false} GuardCanDie(c: Config) returns (ls: seq<Label<int>>, t: Sys<int>)
    ensures Run(c, Initial(), ls, t) && t.pc == Dead
    ensures t.kills == [1] && 1 in t.cells && t.cells[1].failure == Some(MonitorFailed)
  {
    var s0: Sys<int> := Initial();
    var s1 := Apply(c, s0, Register(1, "c", "image"));
    var s2 := Apply(c, s1, OpenPoll);
    var s3 := Apply(c, s2, Inspect(Raised(false)));
    assert s3.states == map["c" := 1] && s3.pc == ClosePending(true);
    assert Enumerates([1], s3.states) by {
      assert s3.states["c"] == 1;
      assert |s3.states| == 1;
      assert 1 in s3.states.Values;
    }
    ls, t := DiesInHandler(c, s3);
    assert Enabled(c, s2, Inspect(Raised(false))) && Enabled(c, s1, OpenPoll);
    RunOn(c, s2, Inspect(Raised(false)), ls, t);
    ls := [Inspect(Raised(false))] + ls;
    RunOn(c, s1, OpenPoll, ls, t);
    ls := [OpenPoll] + ls;
    RunOn(c, s0, Register(1, "c", "image"), ls, t);
    ls := [Register(1, "c", "image")] + ls;
  }

  lemma {:induction false} DiesInHandler(c: Config, s3: Sys<int>) returns (ls: seq<Label<int>>, t: Sys<int>)
    requires s3.pc == ClosePending(true) && Enumerates([1], s3.states) && s3.kills == []
    requires 1 in s3.cells && s3.cells[1].failure == None
    ensures Run(c, s3, ls, t) && t.pc == Dead
    ensures t.kills == [1] && 1 in t.cells && t.cells[1].failure == Some(MonitorFailed)
  {
    var s4 := Apply(c, s3, OpenClosing([1]));
    var s5 := Apply(c, s4, CloseNext);
    ls, t := DiesRecording(c, s5);
    RunOn(c, s4, CloseNext, ls, t);
    ls := [CloseNext] + ls;
    RunOn(c, s3, OpenClosing([1]), ls, t);
    ls := [OpenClosing([1])] + ls;
  }

  lemma {:induction false} DiesRecording(c: Config, s5: Sys<int>) returns (ls: seq<Label<int>>, t: Sys<int>)
    requires s5.pc == Failing(1, MonitorFailed, Close([1], 1, true)) && s5.kills == []
    requires 1 in s5.cells && s5.cells[1].failure == None
    ensures Run(c, s5, ls, t) && t.pc == Dead
    ensures t.kills == [1] && 1 in t.cells && t.cells[1].failure == Some(MonitorFailed)
  {
    var s6 := Apply(c, s5, Fail);
    var s7 := Apply(c, s6, Retire);
    var s8 := Apply(c, s7, AppendEvent(true));
    t := Apply(c, s8, Kill(false));
    RunNowhere(c, t);
    RunOn(c, s8, Kill(false), [], t);
    ls := [Kill(false)] + [];
    RunOn(c, s7, AppendEvent(true), ls, t);
    ls := [AppendEvent(true)] + ls;
    RunOn(c, s6, Retire, ls, t);
    ls := [Retire] + ls;
    RunOn(c, s5, Fail, ls, t);
    ls := [Fail] + ls;
  }

  // ----- What an agent is told -----

  /** The failure that the first `fail` on an object brings, over a run. */
  ghost function FirstError<R>(c: Config, s: Sys<R>, ls: seq<Label<R>>, r: R): Option<Failure>
    decreases |ls|
  {
    if ls == [] || !Enabled(c, s, ls[0]) then None
    else if ls[0].Fail? && s.pc.target == r then Some(s.pc.failure)
    else FirstError(c, Apply(c, s, ls[0]), ls[1..], r)
  }

  lemma {:induction false} ErrorAfterStep<R>(c: Config, s: Sys<R>, l: Label<R>, r: R)
    requires Enabled(c, s, l)
    ensures var t := Apply(c, s, l);
            && (r in s.cells ==>
                  && r in t.cells
                  && t.cells[r].failure ==
                     if s.cells[r].failure.None? && l.Fail? && s.pc.target == r then Some(s.pc.failure)
                     else s.cells[r].failure)
            && (r !in s.cells ==> !(l.Fail? && s.pc.target == r) && (r in t.cells ==> t.cells[r].failure == None))
  {
  }

  lemma {:induction false} ErrorAfterRun<R>(c: Config, s: Sys<R>, ls: seq<Label<R>>, t: Sys<R>, r: R)
    requires Run(c, s, ls, t)
    ensures r in s.cells && s.cells[r].failure.Some? ==> r in t.cells && t.cells[r].failure == s.cells[r].failure
    ensures r in t.cells && !(r in s.cells && s.cells[r].failure.Some?) ==>
              t.cells[r].failure == FirstError(c, s, ls, r)
    decreases |ls|
  {
    if ls != [] {
      hide Apply, Enabled;
      ErrorAfterStep(c, s, ls[0], r);
      ErrorAfterRun(c, Apply(c, s, ls[0]), ls[1..], t, r);
    }
  }

  /** What `raise_if_failed` raises: nothing as long as the guard has brought no error against
      the object, and from then on, whatever happens, the first error it brought. */
  lemma {:induction false} RaisesFirstError<R>(c: Config, ls: seq<Label<R>>, t: Sys<R>, r: R)
    requires Run(c, Initial(), ls, t) && r in t.cells
    ensures t.cells[r].failure == FirstError(c, Initial(), ls, r)
  {
    ErrorAfterRun(c, Initial(), ls, t, r);
  }

  // ----- An accepted poll -----

  /** Docker answers for requested ids only, and at most once for each. */
  ghost predicate AnswersRequests<R>(p: Poll<R>)
    requires p.inspection.Completed?
  {
    && (forall r | r in p.inspection.records :: r.id in p.opening)
    && (forall i, j | 0 <= i < j < |p.inspection.records| ::
          p.inspection.records[i].id != p.inspection.records[j].id)
  }

  lemma {:induction false} DistinctIdsCount(records: seq<Record>)
    requires forall i, j | 0 <= i < j < |records| :: records[i].id != records[j].id
    ensures |RecordIds(records)| == |records|
  {
    if records != [] {
      var rest := records[..|records| - 1];
      var last := records[|records| - 1];
      DistinctIdsCount(rest);
      assert RecordIds(records) == RecordIds(rest) + {last.id};
    }
  }

  lemma {:induction false} SubsetOfEqualSize<T>(a: set<T>, b: set<T>)
    requires a <= b && |a| == |b|
    ensures a == b
  {
    assert b == a + (b - a);
  }

  /** A container that stays registered throughout an accepted poll was answered for. */
  lemma {:induction false} StayersAreAnswered<R>(cells: map<R, Cell>, p: Poll<R>, id: string)
    requires PollSound(cells, p) && AnswersRequests(p)
    requires id in p.opening && id in p.closing && p.opening[id] == p.closing[id]
    ensures id in RecordIds(p.inspection.records)
  {
    var ids := RecordIds(p.inspection.records);
    if p.middle.None? {
      DistinctIdsCount(p.inspection.records);
      assert |p.opening.Keys| == |p.opening|;
      SubsetOfEqualSize(ids, p.opening.Keys);
    }
  }

  lemma {:induction false} VerdictOfOnlyRecord(c: Config, records: seq<Record>, k: nat)
    requires k < |records|
    requires forall i, j | 0 <= i < j < |records| :: records[i].id != records[j].id
    ensures FirstVerdict(c, records, records[k].id) == Verdict(c, records[k])
  {
    var n := |records| - 1;
    if k < n {
      VerdictOfOnlyRecord(c, records[..n], k);
    } else {
      NoVerdictWithoutRecord(c, records[..n], records[k].id);
    }
  }

  lemma {:induction false} NoVerdictWithoutRecord(c: Config, records: seq<Record>, id: string)
    requires id !in RecordIds(records)
    ensures FirstVerdict(c, records, id) == None
  {
    if records != [] {
      var n := |records| - 1;
      assert records[n].id in RecordIds(records);
      assert RecordIds(records[..n]) <= RecordIds(records);
      NoVerdictWithoutRecord(c, records[..n], id);
    }
  }

  /** The size is this integer; Python's booleans are the integers 0 and 1. */
  ghost predicate Measures(size: SizeValue, b: int) {
    size == SizeInt(b) || (size == SizeBool(true) && b == 1) || (size == SizeBool(false) && b == 0)
  }

  ghost predicate InOrder(c: Config, size: SizeValue) {
    exists b: int :: Measures(size, b) && 0 <= b <= c.limitBytes
  }

  ghost predicate Invalid(size: SizeValue) {
    forall b: int | Measures(size, b) :: b < 0
  }

  /** The failure that the size calls for: no integer or a negative one is invalid, and one
      above the limit exceeds it. */
  ghost predicate CallsFor(c: Config, size: SizeValue, failure: Option<Failure>) {
    match failure
    case None => InOrder(c, size)
    case Some(LimitExceeded(b)) => Measures(size, b) && b >= 0 && b > c.limitBytes
    case Some(InvalidSize(named)) => named == size && Invalid(size)
    case Some(MonitorFailed) => false
  }

  lemma {:induction false} VerdictIs(c: Config, r: Record, failure: Option<Failure>)
    ensures Verdict(c, r) == failure <==> CallsFor(c, r.size, failure)
  {
    match r.size
    case SizeInt(b) => assert Measures(r.size, b);
    case SizeBool(flag) => assert Measures(r.size, if flag then 1 else 0);
    case SizeOther =>
  }

  /** The first record on the id whose size is not in order, if there is one. */
  lemma {:induction false} FirstVerdictIs(c: Config, records: seq<Record>, id: string)
    ensures FirstVerdict(c, records, id) == None <==>
            forall j | 0 <= j < |records| && records[j].id == id :: InOrder(c, records[j].size)
    ensures FirstVerdict(c, records, id) != None ==>
              exists j :: 0 <= j < |records| && FirstOffence(c, records, id, j, FirstVerdict(c, records, id))
  {
    hide Verdict, InOrder, CallsFor;
    if records != [] {
      var n := |records| - 1;
      FirstVerdictIs(c, records[..n], id);
      VerdictIs(c, records[n], None);
      NoneCalledFor(c, records[n].size);
      VerdictIs(c, records[n], Verdict(c, records[n]));
      var before := FirstVerdict(c, records[..n], id);
      if before != None {
        var j :| 0 <= j < n && FirstOffence(c, records[..n], id, j, before);
        assert FirstOffence(c, records, id, j, before);
        assert records[..n][j] == records[j];
      } else {
        assert forall j | 0 <= j < n :: records[..n][j] == records[j];
        if FirstVerdict(c, records, id) != None {
          assert FirstOffence(c, records, id, n, FirstVerdict(c, records, id));
        }
      }
    }
  }

  lemma {:induction false} NoneCalledFor(c: Config, size: SizeValue)
    ensures CallsFor(c, size, None) <==> InOrder(c, size)
  {
  }

  /** Record `j` is the first on the id that is not in order, and calls for this failure. */
  ghost predicate FirstOffence(c: Config, records: seq<Record>, id: string, j: int, failure: Option<Failure>) {
    && 0 <= j < |records| && records[j].id == id && failure.Some? && CallsFor(c, records[j].size, failure)
    && forall i | 0 <= i < j && records[i].id == id :: InOrder(c, records[i].size)
  }

  /** At the end of an accepted poll, in any interleaving and whatever Docker said,
      each object of the closing snapshot carries exactly the first verdict the
      records pass on its id: none if all sizes on it are in order, and otherwise what the
      first one that is not calls for. */
  lemma {:induction false} AcceptedPollActsOnRecords<R>(c: Config, ls: seq<Label<R>>, t: Sys<R>, id: string)
    requires Run(c, Initial(), ls, t)
    requires t.pc.Scanning? && t.pc.poll.inspection.Completed?
    requires t.pc.next == |t.pc.poll.inspection.records| && id in t.pc.poll.closing
    ensures t.pc.poll.closing[id] in t.cells
    ensures t.cells[t.pc.poll.closing[id]].failure == FirstVerdict(c, t.pc.poll.inspection.records, id)
    ensures var records, failure := t.pc.poll.inspection.records, t.cells[t.pc.poll.closing[id]].failure;
            && (failure == None <==>
                forall j | 0 <= j < |records| && records[j].id == id :: InOrder(c, records[j].size))
            && (failure != None ==> exists j :: 0 <= j < |records| && FirstOffence(c, records, id, j, failure))
  {
    ReachableInv(c, ls, t);
    var records := t.pc.poll.inspection.records;
    assert records[..|records|] == records;
    FirstVerdictIs(c, records, id);
  }

  lemma {:induction false} VerdictOfSize(c: Config, r: Record)
    ensures Verdict(c, r) == None <==> exists b: int :: Measures(r.size, b) && 0 <= b <= c.limitBytes
    ensures Verdict(c, r) == Some(InvalidSize(r.size)) <==> forall b: int | Measures(r.size, b) :: b < 0
    ensures forall b: int :: Verdict(c, r) == Some(LimitExceeded(b)) <==>
                             Measures(r.size, b) && b >= 0 && b > c.limitBytes
  {
    hide Verdict, Measures;
    VerdictIs(c, r, None);
    VerdictIs(c, r, Some(InvalidSize(r.size)));
    forall b: int
      ensures Verdict(c, r) == Some(LimitExceeded(b)) <==> Measures(r.size, b) && b >= 0 && b > c.limitBytes
    {
      VerdictIs(c, r, Some(LimitExceeded(b)));
    }
  }

  /** An object in both the opening and the closing snapshot of an accepted poll had
      its size checked: there is one record for it, and the object is failed with
      that record's verdict, or not failed at all if the size is in order. */
  lemma {:induction false} AcceptedPollChecksStayers<R>(c: Config, ls: seq<Label<R>>, t: Sys<R>, id: string) returns (k: nat)
    requires Run(c, Initial(), ls, t)
    requires t.pc.Scanning? && t.pc.poll.inspection.Completed?
    requires t.pc.next == |t.pc.poll.inspection.records| && AnswersRequests(t.pc.poll)
    requires id in t.pc.poll.opening && id in t.pc.poll.closing
    requires t.pc.poll.opening[id] == t.pc.poll.closing[id]
    ensures k < |t.pc.poll.inspection.records| && t.pc.poll.inspection.records[k].id == id
    ensures t.pc.poll.closing[id] in t.cells
    ensures t.cells[t.pc.poll.closing[id]].failure == Verdict(c, t.pc.poll.inspection.records[k])
    ensures var size, failure := t.pc.poll.inspection.records[k].size, t.cells[t.pc.poll.closing[id]].failure;
            && (failure == None <==> exists b: int :: Measures(size, b) && 0 <= b <= c.limitBytes)
            && (failure == Some(InvalidSize(size)) <==> forall b: int | Measures(size, b) :: b < 0)
            && (forall b: int :: failure == Some(LimitExceeded(b)) <==> Measures(size, b) && b >= 0 && b > c.limitBytes)
  {
    hide Run, CleanupRace, Suspicious, Verdict, Measures;
    AcceptedPollActsOnRecords(c, ls, t, id);
    ReachableInv(c, ls, t);
    var p := t.pc.poll;
    StayersAreAnswered(t.cells, p, id);
    k :| 0 <= k < |p.inspection.records| && p.inspection.records[k].id == id;
    VerdictOfOnlyRecord(c, p.inspection.records, k);
    VerdictOfSize(c, p.inspection.records[k]);
  }
}
