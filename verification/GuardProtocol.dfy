/** The Docker writable-layer guard as a state machine.

    Agent threads register and unregister containers while one guard thread polls
    Docker and fails the containers that outgrow their writable layer.  Every
    transition below is one critical section of the program (one `with self._lock`
    block, one Docker call, or code that touches state only the guard thread
    uses), so a run of the machine is one interleaving of the threads.

    `R` stands for the identity of a `GuardState` object.  The same container id
    can be registered again under a new object, so an id does not determine one. */
module GuardProtocol {
  import opened Strings
  import opened Wrappers

  // ----- Data -----

  /** The `SizeRw` member of a Docker record: any JSON value. */
  datatype SizeValue = SizeInt(bytes: int) | SizeBool(flag: bool) | SizeOther

  datatype Record = Record(id: string, size: SizeValue)

  datatype Failure = LimitExceeded(bytes: int) | InvalidSize(size: SizeValue) | MonitorFailed

  /** One `GuardState` object. */
  datatype Cell = Cell(id: string, image: string, failure: Option<Failure>, writableBytes: Option<int>)

  /** What one `docker inspect` call and the parsing of its output did.  An
      exception is `handled` when `_poll_once` lists its type. */
  datatype Inspection =
    | Raised(handled: bool)
    | Completed(exitCode: int, records: seq<Record>, errorLines: seq<string>)

  /** An accepted poll: the snapshots it took and the records it will judge. */
  datatype Poll<R> = Poll(
    opening: map<string, R>,
    inspection: Inspection,
    middle: Option<map<string, R>>,
    closing: map<string, R>)

  /** Where the guard thread goes on after `_fail_state`. */
  datatype Continuation<R> =
    | Scan(poll: Poll<R>, next: nat)
    | Close(all: seq<R>, next: nat, outermost: bool)

  /** The guard thread's program counter. */
  datatype Pc<R> =
    | Waiting
    | Inspecting(opening: map<string, R>)
    | Checking(opening: map<string, R>, inspection: Inspection)
    | Accepted(opening: map<string, R>, inspection: Inspection, middle: Option<map<string, R>>)
    | Scanning(poll: Poll<R>, next: nat)
    | ClosePending(outermost: bool)
    | Closing(all: seq<R>, next: nat, outermost: bool)
    | Failing(target: R, failure: Failure, cont: Continuation<R>)
    | Retiring(target: R, newly: bool, cont: Continuation<R>)
    | Recording(target: R, cont: Continuation<R>)
    | Killing(target: R, raised: bool, cont: Continuation<R>)
    | Dead

  /** How a poll ended, as far as the failure counter is concerned. */
  datatype Outcome = EmptyPoll | AcceptedPoll | ErroredPoll | CrashedPoll

  datatype Config = Config(limitBytes: int, maxMonitorFailures: nat)

  datatype Sys<R> = Sys(
    cells: map<R, Cell>,          // every GuardState object ever registered
    states: map<string, R>,       // _states
    monitorFailures: nat,         // _monitor_failures
    pc: Pc<R>,
    failed: seq<R>,               // history: writes of GuardState.failure
    events: seq<R>,               // history: lines appended to the event log
    kills: seq<R>,                // history: calls of `docker kill`
    outcomes: seq<Outcome>)       // history: how the polls ended

  function Initial<R>(): Sys<R> {
    Sys(map[], map[], 0, Waiting, [], [], [], [])
  }

  // ----- Judging Docker's answer -----

  /** `isinstance(SizeRw, int)`: Python's booleans are integers. */
  function SizeAsInt(size: SizeValue): Option<int> {
    match size
    case SizeInt(b) => Some(b)
    case SizeBool(f) => Some(if f then 1 else 0)
    case SizeOther => None
  }

  /** The failure a record brings on its container, if any. */
  function Verdict(c: Config, r: Record): Option<Failure> {
    match SizeAsInt(r.size)
    case None => Some(InvalidSize(r.size))
    case Some(b) =>
      if b < 0 then Some(InvalidSize(r.size))
      else if b > c.limitBytes then Some(LimitExceeded(b))
      else None
  }

  /** `writable_bytes` is recorded for an exceeded limit only. */
  function RecordedBytes(f: Failure): Option<int> {
    if f.LimitExceeded? then Some(f.bytes) else None
  }

  /** `GuardState.fail`: the first failure stays. */
  function FailOnce(cell: Cell, f: Failure): Cell {
    if cell.failure.Some? then cell else cell.(failure := Some(f), writableBytes := RecordedBytes(f))
  }

  const ERROR_PREFIX := "error: no such object: "

  function MissingObjectIds(lines: seq<string>): set<string> {
    set l | l in lines && ERROR_PREFIX <= Lower(l) :: Strip(l[|ERROR_PREFIX|..])
  }

  function RecordIds(records: seq<Record>): set<string> {
    set r | r in records :: r.id
  }

  /** The exit status or the record count calls for a closer look. */
  predicate Suspicious<R>(opening: map<string, R>, i: Inspection)
    requires i.Completed?
  {
    i.exitCode != 0 || |i.records| != |opening|
  }

  /** `cleanup_race`: Docker missed exactly the containers that have been
      unregistered since the poll began, and said so. */
  predicate CleanupRace<R>(opening: map<string, R>, i: Inspection, current: set<string>)
    requires i.Completed?
  {
    var missing := opening.Keys - RecordIds(i.records);
    var stale := missing - current;
    var lines := NonBlank(i.errorLines);
    var named := MissingObjectIds(lines);
    && i.exitCode != 0
    && missing != {}
    && stale == missing
    && |named| == |lines|
    && named == missing
  }

  // ----- Transitions -----

  datatype Label<R> =
    | Register(obj: R, id: string, image: string)
    | Unregister(id: string)
    | OpenPoll
    | Inspect(answer: Inspection)
    | CheckRace
    | AcceptPoll
    | ScanNext
    | OpenClosing(order: seq<R>)
    | CloseNext
    | Fail
    | Retire
    | AppendEvent(raises: bool)
    | Kill(raises: bool)

  /** `seq(states.values())`, in some order. */
  ghost predicate Enumerates<R>(order: seq<R>, states: map<string, R>) {
    && |order| == |states|
    && (forall id | id in states :: states[id] in order)
    && (forall x | x in order :: x in states.Values)
  }

  ghost predicate Enabled<R>(c: Config, s: Sys<R>, l: Label<R>) {
    match l
    case Register(obj, id, _) => obj !in s.cells && id != ""
    case Unregister(_) => true
    case OpenPoll => s.pc.Waiting?
    case Inspect(_) => s.pc.Inspecting?
    case CheckRace => s.pc.Checking? && s.pc.inspection.Completed?
    case AcceptPoll => s.pc.Accepted?
    case ScanNext => s.pc.Scanning? && s.pc.poll.inspection.Completed?
    case OpenClosing(order) => s.pc.ClosePending? && Enumerates(order, s.states)
    case CloseNext => s.pc.Closing?
    case Fail => s.pc.Failing? && s.pc.target in s.cells
    case Retire => s.pc.Retiring? && s.pc.target in s.cells
    case AppendEvent(_) => s.pc.Recording?
    case Kill(_) => s.pc.Killing?
  }

  /** The `except` clause of `_poll_once`. */
  function PollError<R>(c: Config, s: Sys<R>): Sys<R> {
    var n := s.monitorFailures + 1;
    s.(monitorFailures := n,
       outcomes := s.outcomes + [ErroredPoll],
       pc := if n >= c.maxMonitorFailures then ClosePending(false) else Waiting)
  }

  function Resume<R>(k: Continuation<R>): Pc<R> {
    match k
    case Scan(p, n) => Scanning(p, n)
    case Close(all, n, o) => Closing(all, n, o)
  }

  /** An exception out of `_fail_state`.  From `_poll_once` it reaches the handler
      in `_run`; from that handler it ends the guard thread. */
  function Unwind<R>(k: Continuation<R>): Pc<R> {
    if k.Close? && k.outermost then Dead else ClosePending(true)
  }

  /** The next record, or the end of the poll. */
  function ScanStep<R>(c: Config, p: Poll<R>, n: nat): Pc<R>
    requires p.inspection.Completed?
  {
    var records := p.inspection.records;
    if n >= |records| then Waiting
    else
      var r := records[n];
      if r.id in p.closing && Verdict(c, r).Some? then
        var f := Verdict(c, r).value;
        Failing(p.closing[r.id], f, Scan(p, n + 1))
      else Scanning(p, n + 1)
  }

  function AfterInspect<R>(c: Config, s: Sys<R>, answer: Inspection): Sys<R>
    requires s.pc.Inspecting?
  {
    var opening := s.pc.opening;
    match answer
    case Raised(true) => PollError(c, s)
    case Raised(false) => s.(pc := ClosePending(true), outcomes := s.outcomes + [CrashedPoll])
    case Completed(_, _, _) =>
      if Suspicious(opening, answer) then s.(pc := Checking(opening, answer))
      else s.(pc := Accepted(opening, answer, None))
  }

  ghost function Apply<R>(c: Config, s: Sys<R>, l: Label<R>): Sys<R>
    requires Enabled(c, s, l)
  {
    match l
    case Register(obj, id, image) =>
      if id in s.states then s
      else s.(cells := s.cells[obj := Cell(id, image, None, None)], states := s.states[id := obj])
    case Unregister(id) => s.(states := s.states - {id})
    case OpenPoll =>
      if |s.states| == 0 then s.(monitorFailures := 0, outcomes := s.outcomes + [EmptyPoll])
      else s.(pc := Inspecting(s.states))
    case Inspect(answer) => AfterInspect(c, s, answer)
    case CheckRace =>
      if CleanupRace(s.pc.opening, s.pc.inspection, s.states.Keys)
      then s.(pc := Accepted(s.pc.opening, s.pc.inspection, Some(s.states)))
      else PollError(c, s)
    case AcceptPoll =>
      s.(monitorFailures := 0,
         outcomes := s.outcomes + [AcceptedPoll],
         pc := Scanning(Poll(s.pc.opening, s.pc.inspection, s.pc.middle, s.states), 0))
    case ScanNext => s.(pc := ScanStep(c, s.pc.poll, s.pc.next))
    case OpenClosing(order) => s.(pc := Closing(order, 0, s.pc.outermost))
    case CloseNext =>
      if s.pc.next >= |s.pc.all| then s.(pc := Waiting)
      else s.(pc := Failing(s.pc.all[s.pc.next], MonitorFailed,
                            Close(s.pc.all, s.pc.next + 1, s.pc.outermost)))
    case Fail =>
      var x := s.pc.target;
      var newly := s.cells[x].failure.None?;
      s.(cells := s.cells[x := FailOnce(s.cells[x], s.pc.failure)],
         failed := if newly then s.failed + [x] else s.failed,
         pc := Retiring(x, newly, s.pc.cont))
    case Retire =>
      var id := s.cells[s.pc.target].id;
      s.(states := if id in s.states && s.states[id] == s.pc.target then s.states - {id} else s.states,
         pc := if s.pc.newly then Recording(s.pc.target, s.pc.cont) else Resume(s.pc.cont))
    case AppendEvent(raises) =>
      s.(events := if raises then s.events else s.events + [s.pc.target],
         pc := Killing(s.pc.target, raises, s.pc.cont))
    case Kill(raises) =>
      s.(kills := s.kills + [s.pc.target],
         pc := if s.pc.raised || raises then Unwind(s.pc.cont) else Resume(s.pc.cont))
  }

  /** Some interleaving of the threads leads from `s` to `t`. */
  ghost predicate Run<R>(c: Config, s: Sys<R>, ls: seq<Label<R>>, t: Sys<R>)
    decreases |ls|
  {
    if ls == [] then s == t
    else Enabled(c, s, ls[0]) && Run(c, Apply(c, s, ls[0]), ls[1..], t)
  }
}
