/** The guard's two classes, and the proof that they run the protocol.

    `DockerWritableLayerGuard` keeps, beside its real fields, the protocol state it
    is in and the labels that led there.  Its invariant says that the real fields
    are those of that state, so every theorem about runs holds of the objects.

    The methods of the guard thread call `Agents` wherever another thread can get
    in: between any two critical sections, the agents may register and unregister
    any number of containers. */
module GuardClasses {
  import opened Wrappers
  import opened GuardProtocol
  import opened GuardRaces
  import opened GuardTheorems

  class GuardState {
    const containerId: string
    const image: string
    var failure: Option<Failure>
    var writableBytes: Option<int>

    ghost function View(): Cell
      reads this
    {
      Cell(containerId, image, failure, writableBytes)
    }

    constructor (containerId: string, image: string)
      ensures View() == Cell(containerId, image, None, None)
    {
      this.containerId := containerId;
      this.image := image;
      failure := None;
      writableBytes := None;
    }

    /** The first error wins. */
    method Fail(error: Failure, bytes: Option<int>) returns (newly: bool)
      modifies this
      ensures newly == old(failure).None?
      ensures newly ==> failure == Some(error) && writableBytes == bytes
      ensures !newly ==> View() == old(View())
    {
      if failure.Some? {
        return false;
      }
      failure := Some(error);
      writableBytes := bytes;
      return true;
    }

    /** The exception `raise_if_failed` raises, if it does: the first error that `guard` has
        brought against this object. */
    method RaiseIfFailed(ghost guard: DockerWritableLayerGuard) returns (raised: Option<Failure>)
      requires guard.Valid() && this in guard.sys.cells
      ensures raised == failure
      ensures raised == FirstError(guard.config, Initial(), guard.trace, this)
    {
      raised := failure;
      RaisesFirstError(guard.config, guard.trace, guard.sys, this);
    }
  }

  datatype AgentAction = RegisterAction(id: string, image: string) | UnregisterAction(id: string)

  datatype RegisterError = EmptyId | AlreadyRegistered

  /** Everything the guard cannot foresee, by the number of times it has asked. */
  datatype World = World(
    agents: nat -> seq<AgentAction>,
    docker: nat -> Inspection,
    appendRaises: nat -> bool,
    killRaises: nat -> bool)

  lemma {:induction false} RunAppend<R>(c: Config, s: Sys<R>, ls: seq<Label<R>>, t: Sys<R>, l: Label<R>)
    requires Run(c, s, ls, t) && Enabled(c, t, l)
    ensures Run(c, s, ls + [l], Apply(c, t, l))
    decreases |ls|
  {
    if ls == [] {
      assert (ls + [l])[1..] == [];
    } else {
      RunAppend(c, Apply(c, s, ls[0]), ls[1..], t, l);
      assert (ls + [l])[1..] == ls[1..] + [l];
    }
  }

  lemma {:induction false} InspectIs<R>(c: Config, s: Sys<R>, answer: Inspection)
    requires s.pc.Inspecting?
    ensures Enabled(c, s, Inspect(answer)) && Apply(c, s, Inspect(answer)) == AfterInspect(c, s, answer)
    ensures var t := AfterInspect(c, s, answer);
            && t.states == s.states && t.cells == s.cells
            && t.monitorFailures == s.monitorFailures + if answer == Raised(true) then 1 else 0
  {
    hide Suspicious;
  }

  class DockerWritableLayerGuard {
    const config: Config
    const world: World
    var asked: nat
    var states: map<string, GuardState>
    var monitorFailures: nat
    ghost var sys: Sys<GuardState>
    ghost var trace: seq<Label<GuardState>>

    /** The ghost state is one that the protocol reaches. */
    ghost predicate Reached()
      reads this
    {
      Run(config, Initial(), trace, sys)
    }

    ghost predicate Valid()
      reads this, sys.cells.Keys
    {
      && Reached()
      && states == sys.states
      && monitorFailures == sys.monitorFailures
      && (forall r | r in sys.cells :: r.View() == sys.cells[r])
    }

    /** What a stretch of the program does as seen from before it. */
    twostate predicate Onward()
      reads this
    {
      && old(trace) <= trace
      && (forall r | r in sys.cells :: r in old(sys.cells) || fresh(r))
      && old(sys.cells.Keys) <= sys.cells.Keys
    }

    constructor (limitBytes: int, maxMonitorFailures: nat, world: World)
      requires limitBytes > 0 && maxMonitorFailures > 0
      ensures Valid() && sys == Initial() && trace == []
      ensures config == Config(limitBytes, maxMonitorFailures)
    {
      config := Config(limitBytes, maxMonitorFailures);
      this.world := world;
      asked := 0;
      states := map[];
      monitorFailures := 0;
      sys := Initial();
      trace := [];
    }

    ghost method Take(l: Label<GuardState>)
      requires Reached() && Enabled(config, sys, l)
      modifies this`sys, this`trace
      ensures Reached()
      ensures sys == Apply(config, old(sys), l) && trace == old(trace) + [l]
    {
      RunAppend(config, Initial(), trace, sys, l);
      sys := Apply(config, sys, l);
      trace := trace + [l];
    }

    method Register(id: string, image: string) returns (r: Result<GuardState, RegisterError>)
      requires Valid()
      modifies this`states, this`sys, this`trace
      ensures Valid() && Onward() && sys.pc == old(sys.pc) && sys.kills == old(sys.kills)
      ensures r == Failure(EmptyId) <==> id == ""
      ensures r == Failure(AlreadyRegistered) <==> id != "" && id in old(states)
      ensures r.Failure? ==> states == old(states)
      ensures r.Success? ==> fresh(r.value) && states == old(states)[id := r.value]
      ensures r.Success? ==> r.value.View() == Cell(id, image, None, None)
    {
      if id == "" {
        return Failure(EmptyId);
      }
      var state := new GuardState(id, image);
      if id in states {
        return Failure(AlreadyRegistered);
      }
      Take(Label.Register(state, id, image));
      states := states[id := state];
      return Success(state);
    }

    method Unregister(id: string)
      requires Valid()
      modifies this`states, this`sys, this`trace
      ensures Valid() && Onward() && sys.pc == old(sys.pc) && sys.kills == old(sys.kills)
      ensures states == old(states) - {id}
    {
      Take(Label.Unregister(id));
      states := states - {id};
    }

    /** The other threads run for a while. */
    method Agents()
      requires Valid()
      modifies this`asked, this`states, this`sys, this`trace
      ensures Valid() && Onward() && sys.pc == old(sys.pc) && sys.kills == old(sys.kills)
    {
      var actions := world.agents(asked);
      asked := asked + 1;
      for i := 0 to |actions|
        invariant Valid() && Onward() && sys.pc == old(sys.pc) && sys.kills == old(sys.kills)
      {
        match actions[i]
        case RegisterAction(id, image) => var _ := this.Register(id, image);
        case UnregisterAction(id) => this.Unregister(id);
      }
    }

    /** Removes `state`, and only if it is still the one registered under its id. */
    method Retire(state: GuardState)
      requires Valid() && sys.pc.Retiring? && sys.pc.target == state && state in sys.cells
      modifies this`states, this`sys, this`trace
      ensures Valid() && Onward() && sys.kills == old(sys.kills)
      ensures sys.pc == if old(sys.pc.newly) then Recording(state, old(sys.pc.cont)) else Resume(old(sys.pc.cont))
      ensures forall id | id in old(states) && old(states)[id] != state ::
                id in states && states[id] == old(states)[id]
      ensures forall id | id in states :: id in old(states) && states[id] == old(states)[id] != state
    {
      ReachableInv(config, trace, sys);
      Take(Label.Retire);
      if state.containerId in states && states[state.containerId] == state {
        states := states - {state.containerId};
      }
    }

    /** The critical section of `GuardState.fail`. */
    method FailCell(state: GuardState, error: Failure) returns (newly: bool)
      requires Valid() && sys.pc.Failing? && sys.pc.target == state && sys.pc.failure == error
      requires state in sys.cells
      modifies this`sys, this`trace, state
      ensures Valid() && Onward() && sys.kills == old(sys.kills)
      ensures sys.pc == Retiring(state, newly, old(sys.pc.cont))
      ensures newly == old(state.failure).None? && state in sys.cells
      ensures state.failure == if newly then Some(error) else old(state.failure)
      ensures state.failure.Some?
    {
      newly := state.Fail(error, RecordedBytes(error));
      Take(Label.Fail);
    }

    /** The event line; `_append_event` may raise. */
    method AppendEvent() returns (raised: bool)
      requires Valid() && sys.pc.Recording?
      modifies this`asked, this`sys, this`trace
      ensures Valid() && Onward() && sys.kills == old(sys.kills)
      ensures sys.pc == Killing(old(sys.pc.target), raised, old(sys.pc.cont))
    {
      raised := world.appendRaises(asked);
      asked := asked + 1;
      Take(Label.AppendEvent(raised));
    }

    /** `docker kill`, which the `finally` clause runs whatever became of the event. */
    method KillContainer(appendRaised: bool) returns (raised: bool)
      requires Valid() && sys.pc.Killing? && sys.pc.raised == appendRaised
      modifies this`asked, this`sys, this`trace
      ensures Valid() && Onward()
      ensures appendRaised ==> raised
      ensures sys.pc == if raised then Unwind(old(sys.pc.cont)) else Resume(old(sys.pc.cont))
      ensures sys.kills == old(sys.kills) + [old(sys.pc.target)]
    {
      var killRaised := world.killRaises(asked);
      asked := asked + 1;
      Take(Label.Kill(killRaised));
      raised := appendRaised || killRaised;
    }

    /** `fail`, then `_retire`. */
    method FailAndRetire(state: GuardState, error: Failure) returns (newly: bool)
      requires Valid() && sys.pc.Failing? && sys.pc.target == state && sys.pc.failure == error
      requires state in sys.cells
      modifies this, state
      ensures Valid() && Onward() && sys.kills == old(sys.kills)
      ensures sys.pc == if newly then Recording(state, old(sys.pc.cont)) else Resume(old(sys.pc.cont))
      ensures newly == old(state.failure).None?
      ensures state.failure == if newly then Some(error) else old(state.failure)
    {
      newly := FailCell(state, error);
      Agents();
      Retire(state);
    }

    /** The `try`/`finally` of `_fail_state`. */
    method RecordAndKill() returns (raised: bool)
      requires Valid() && sys.pc.Recording?
      modifies this
      ensures Valid() && Onward()
      ensures sys.pc == if raised then Unwind(old(sys.pc.cont)) else Resume(old(sys.pc.cont))
      ensures sys.kills == old(sys.kills) + [old(sys.pc.target)]
    {
      Agents();
      var appendRaised := AppendEvent();
      Agents();
      raised := KillContainer(appendRaised);
    }

    /** Outside `_fail_state` no failed object is registered. */
    lemma {:induction false} FailedIsRetired(state: GuardState)
      requires Valid() && !sys.pc.Retiring? && state in sys.cells && state.failure.Some?
      ensures state !in states.Values
    {
      ReachableInv(config, trace, sys);
    }

    /** Fails one container; reports whether an exception escapes. */
    method FailState(state: GuardState, error: Failure) returns (raised: bool)
      requires Valid() && sys.pc.Failing? && sys.pc.target == state && sys.pc.failure == error
      requires state in sys.cells
      modifies this, state
      ensures Valid() && Onward()
      ensures sys.pc == if raised then Unwind(old(sys.pc.cont)) else Resume(old(sys.pc.cont))
      ensures state.failure == if old(state.failure).Some? then old(state.failure) else Some(error)
      ensures old(state.failure).Some? ==> !raised
      ensures sys.kills == if old(state.failure).None? then old(sys.kills) + [state] else old(sys.kills)
      ensures state !in states.Values
    {
      hide Apply, Enabled, Run;
      Agents();
      var newly := FailAndRetire(state, error);
      raised := false;
      if newly {
        raised := RecordAndKill();
      }
      FailedIsRetired(state);
    }

    /** `_states.values()`, in some order. */
    method Values(snapshot: map<string, GuardState>) returns (order: seq<GuardState>)
      ensures |order| == |snapshot|
      ensures forall id | id in snapshot :: snapshot[id] in order
      ensures forall r | r in order :: r in snapshot.Values
    {
      order := [];
      var ids := snapshot.Keys;
      while ids != {}
        invariant ids <= snapshot.Keys
        invariant |order| + |ids| == |snapshot|
        invariant forall id | id in snapshot && id !in ids :: snapshot[id] in order
        invariant forall r | r in order :: r in snapshot.Values
        decreases ids
      {
        var id :| id in ids;
        order := order + [snapshot[id]];
        ids := ids - {id};
      }
    }

    method CloseOne(order: seq<GuardState>, i: nat) returns (raised: bool)
      requires Valid() && sys.pc.Closing? && sys.pc.all == order && sys.pc.next == i
      requires i < |order| && order[i] in sys.cells
      modifies this, order[i]
      ensures Valid() && Onward()
      ensures var k := Close(order, i + 1, old(sys.pc.outermost));
              sys.pc == if raised then Unwind(k) else Resume(k)
      ensures order[i].failure.Some?
      ensures old(order[i].failure).Some? ==> order[i].failure == old(order[i].failure)
    {
      Take(CloseNext);
      raised := FailState(order[i], MonitorFailed);
    }

    method CloseAll(order: seq<GuardState>) returns (raised: bool)
      requires Valid() && sys.pc.Closing? && sys.pc.all == order && sys.pc.next == 0
      requires forall r | r in order :: r in sys.cells
      modifies this, sys.cells.Keys
      ensures Valid() && Onward()
      ensures sys.pc == if raised then Unwind(old(Close(order, 0, sys.pc.outermost)))
                        else Closing(order, |order|, old(sys.pc.outermost))
      ensures !raised ==> forall r | r in order :: r.failure == Some(MonitorFailed)
    {
      hide Apply, Enabled, Run;
      ghost var outermost := sys.pc.outermost;
      var i := 0;
      while i < |order|
        invariant Valid() && Onward()
        invariant 0 <= i <= |order|
        invariant sys.pc == Closing(order, i, outermost)
      {
        raised := CloseOne(order, i);
        if raised {
          return;
        }
        i := i + 1;
      }
      ClosedAll();
      raised := false;
    }

    lemma {:induction false} ClosedAll()
      requires Valid() && sys.pc.Closing? && sys.pc.next == |sys.pc.all|
      ensures forall r | r in sys.pc.all :: r in sys.cells && r.failure == Some(MonitorFailed)
    {
      ReachableInv(config, trace, sys);
      assert forall r | r in sys.cells :: r.View() == sys.cells[r];
    }

    lemma {:induction false} RegisteredAreObjects()
      requires Valid()
      ensures forall id | id in states :: states[id] in sys.cells
    {
      ReachableInv(config, trace, sys);
    }

    /** The snapshot that `_fail_closed` goes through. */
    method OpenSnapshot() returns (order: seq<GuardState>)
      requires Valid() && sys.pc.ClosePending?
      modifies this`sys, this`trace
      ensures Valid() && Onward() && sys.cells == old(sys.cells)
      ensures sys.pc == Closing(order, 0, old(sys.pc.outermost))
      ensures forall id | id in states :: states[id] in order
      ensures forall r | r in order :: r in sys.cells
    {
      hide Run, CleanupRace;
      RegisteredAreObjects();
      order := Values(states);
      Take(OpenClosing(order));
    }

    ghost method EndClosing()
      requires Valid() && sys.pc.Closing? && sys.pc.next == |sys.pc.all|
      modifies this`sys, this`trace
      ensures Valid() && Onward() && sys.cells == old(sys.cells) && sys.pc == Waiting
    {
      hide Run, CleanupRace;
      Take(CloseNext);
    }

    /** Fails everything registered; reports whether an exception escapes. */
    method FailClosed() returns (raised: bool)
      requires Valid() && sys.pc.ClosePending?
      modifies this, sys.cells.Keys
      ensures Valid() && Onward()
      ensures sys.pc == if !raised then Waiting else if old(sys.pc.outermost) then Dead else ClosePending(true)
      ensures !raised ==> forall id | id in old(states) :: old(states)[id].failure == Some(MonitorFailed)
    {
      hide Apply, Enabled, Run;
      var order := OpenSnapshot();
      raised := CloseAll(order);
      if !raised {
        EndClosing();
      }
    }

    /** Runs `docker inspect` and counts a handled error. */
    method InspectContainers() returns (answer: Inspection)
      requires Valid() && sys.pc.Inspecting?
      modifies this`asked, this`monitorFailures, this`sys, this`trace
      ensures Valid() && Onward() && sys == AfterInspect(config, old(sys), answer)
    {
      hide Run, CleanupRace, Suspicious;
      answer := world.docker(asked);
      asked := asked + 1;
      InspectIs(config, sys, answer);
      hide Apply, Enabled;
      Take(Inspect(answer));
      if answer == Raised(true) {
        monitorFailures := monitorFailures + 1;
      }
    }

    /** Decides whether a short or failed answer is a tolerated cleanup race. */
    method IsCleanupRace(opening: map<string, GuardState>, answer: Inspection) returns (race: bool)
      requires Valid() && sys.pc == Checking(opening, answer) && answer.Completed?
      modifies this`monitorFailures, this`sys, this`trace
      ensures Valid() && Onward() && race == CleanupRace(opening, answer, states.Keys)
      ensures race <==> OrdinaryRace(opening, answer, states.Keys)
      ensures sys.pc == if race then Accepted(opening, answer, Some(states)) else PollError(config, old(sys)).pc
      ensures !race ==> monitorFailures == old(monitorFailures) + 1
    {
      hide OrdinaryRace, CleanupRace, Run;
      RaceIff(opening, answer, states.Keys);
      race := CleanupRace(opening, answer, states.Keys);
      Take(CheckRace);
      if !race {
        monitorFailures := monitorFailures + 1;
      }
    }

    /** From the inspection to the decision to accept the poll.  `escaped` reports
        an exception that `_poll_once` does not handle. */
    method Examine(opening: map<string, GuardState>)
      returns (accepted: bool, escaped: bool, records: seq<Record>)
      requires Valid() && sys.pc == Inspecting(opening)
      modifies this
      ensures Valid() && Onward()
      ensures accepted ==> !escaped && sys.pc.Accepted? && sys.pc.opening == opening
      ensures accepted ==> sys.pc.inspection.Completed? && records == sys.pc.inspection.records
      ensures escaped ==> sys.pc == ClosePending(true)
      ensures !accepted && !escaped ==>
                sys.pc == if monitorFailures >= config.maxMonitorFailures then ClosePending(false) else Waiting
    {
      hide Apply, Enabled, Run, CleanupRace;
      Agents();
      var answer := InspectContainers();
      if answer.Raised? {
        return false, !answer.handled, [];
      }
      if !Suspicious(opening, answer) {
        return true, false, answer.records;
      }
      Agents();
      accepted := IsCleanupRace(opening, answer);
      return accepted, false, answer.records;
    }

    /** One turn of the loop over the records. */
    method ScanRecord(closing: map<string, GuardState>, record: Record) returns (raised: bool)
      requires Valid() && sys.pc.Scanning? && sys.pc.poll.inspection.Completed?
      requires sys.pc.next < |sys.pc.poll.inspection.records|
      requires record == sys.pc.poll.inspection.records[sys.pc.next] && closing == sys.pc.poll.closing
      requires forall id | id in closing :: closing[id] in sys.cells
      modifies this, sys.cells.Keys
      ensures Valid() && Onward()
      ensures sys.pc == if raised then ClosePending(true) else Scanning(old(sys.pc.poll), old(sys.pc.next) + 1)
    {
      Take(ScanNext);
      if record.id !in closing {
        return false;
      }
      var state := closing[record.id];
      match SizeAsInt(record.size) {
        case None =>
          raised := FailState(state, InvalidSize(record.size));
        case Some(bytes) =>
          if bytes < 0 {
            raised := FailState(state, InvalidSize(record.size));
          } else if bytes > config.limitBytes {
            raised := FailState(state, LimitExceeded(bytes));
          } else {
            raised := false;
          }
      }
    }

    method ScanRecords(closing: map<string, GuardState>, records: seq<Record>) returns (raised: bool)
      requires Valid() && sys.pc.Scanning? && sys.pc.poll.inspection.Completed? && sys.pc.next == 0
      requires records == sys.pc.poll.inspection.records && closing == sys.pc.poll.closing
      requires forall id | id in closing :: closing[id] in sys.cells
      modifies this, sys.cells.Keys
      ensures Valid() && Onward()
      ensures sys.pc == if raised then ClosePending(true) else Waiting
    {
      ghost var poll := sys.pc.poll;
      var i := 0;
      while i < |records|
        invariant Valid() && Onward()
        invariant 0 <= i <= |records|
        invariant sys.pc == Scanning(poll, i)
      {
        raised := ScanRecord(closing, records[i]);
        if raised {
          return;
        }
        i := i + 1;
      }
      Take(ScanNext);
      raised := false;
    }

    /** The accepted half of `_poll_once`. */
    method JudgePoll(records: seq<Record>) returns (raised: bool)
      requires Valid() && sys.pc.Accepted? && sys.pc.inspection.Completed?
      requires records == sys.pc.inspection.records
      modifies this, sys.cells.Keys
      ensures Valid() && Onward()
      ensures sys.pc == if raised then ClosePending(true) else Waiting
    {
      ReachableInv(config, trace, sys);
      var closing := states;
      Take(AcceptPoll);
      monitorFailures := 0;
      raised := ScanRecords(closing, records);
    }

    /** `_poll_once`; reports whether an exception escapes it. */
    method PollOnce() returns (raised: bool)
      requires Valid() && sys.pc.Waiting?
      modifies this, sys.cells.Keys
      ensures Valid() && Onward()
      ensures sys.pc == if raised then ClosePending(true) else Waiting
    {
      var opening := states;
      Take(OpenPoll);
      if |opening| == 0 {
        monitorFailures := 0;
        return false;
      }
      var accepted, escaped, records := Examine(opening);
      if escaped {
        return true;
      }
      if accepted {
        Agents();
        raised := JudgePoll(records);
      } else if monitorFailures >= config.maxMonitorFailures {
        raised := FailClosed();
      } else {
        raised := false;
      }
    }

    /** One turn of the guard thread's loop; reports whether the thread survives it. */
    method RunTurn() returns (alive: bool)
      requires Valid() && sys.pc.Waiting?
      modifies this, sys.cells.Keys
      ensures Valid() && Onward()
      ensures sys.pc == if alive then Waiting else Dead
    {
      Agents();
      var raised := PollOnce();
      if raised {
        raised := FailClosed();
      }
      alive := !raised;
      Agents();
    }
  }
}
