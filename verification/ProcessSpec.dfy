/**
 What one supervised child process, and the set of all of them, do on every event: the closure
 variables of `runProcess` as a value, and each of its callbacks as a function on that value.
 The callbacks themselves are in RunProcess.dfy; what their runs keep is in ProcessSafety.dfy.
 */
module ProcessSpec {
  import opened Wrappers
  import opened Text

  datatype Capture = Capture(text: string, truncatedChars: nat)

  /** The value of the option `maxOutputChars`; NaN and the infinities are `NotFinite`. */
  datatype Limit = Absent | NotFinite | Finite(value: real)

  const RUN_PROCESS_OUTPUT_MAX_CHARS: nat := 1024 * 1024

  function ResolveOutputLimit(limit: Limit): (r: nat)
    ensures !limit.Finite? || limit.value <= 0.0 ==> r == 1_048_576
    ensures limit.Finite? && 0.0 < limit.value < 1.0 ==> r == 1
    ensures r >= 1
    ensures limit.Finite? && limit.value >= 1.0 ==> r as real <= limit.value < r as real + 1.0
  {
    if !limit.Finite? || limit.value <= 0.0 then RUN_PROCESS_OUTPUT_MAX_CHARS
    else if limit.value.Floor < 1 then 1
    else limit.value.Floor
  }

  function AppendBounded(capture: Capture, chunk: string, maxChars: nat): Capture
    requires maxChars >= 1
  {
    var nextText := capture.text + chunk;
    if |nextText| <= maxChars then Capture(nextText, capture.truncatedChars)
    else Capture(nextText[|nextText| - maxChars..], capture.truncatedChars + |nextText| - maxChars)
  }

  /** The signals a parent relays, and the one that ends a stubborn group. */
  datatype Signal = SIGINT | SIGTERM | SIGHUP | SIGKILL

  const RELAYED_SIGNALS: set<Signal> := {SIGINT, SIGTERM, SIGHUP}

  /** Exit code of the `close` event, if the child did not end by a signal. */
  datatype Exit = Exit(code: Option<int>)

  /** What the one kill timer of a run will do when it fires, if it is armed. */
  datatype KillTimer = Disarmed | AfterTimeout | AfterRelay(relayed: Signal)

  /** One call of the promise's `resolve` or `reject`; the text of an error is not kept. */
  datatype Settlement =
    | Resolved(code: int, stderr: Capture, stdout: string)
    | RejectedTimedOut
    | RejectedFailed
    | RejectedTruncated
    | RejectedError

  /** The options of a run, and whether its child has a process id. */
  datatype Config = Config(hasPid: bool, maxOutputChars: nat, rejectOnFailure: bool)

  datatype Output = Output(stdout: Capture, stderr: Capture)

  datatype Timers = Timers(timeout: bool, kill: KillTimer)

  /** The `once` listeners that have not fired or been removed. */
  datatype Listeners = Listeners(signals: set<Signal>, close: bool, error: bool)

  /** The entry of a run in the shared set. */
  datatype ParentSignalState = ParentSignalState(signal: Option<Signal>, done: bool)

  /** What has happened so far, which the code does not store. */
  datatype Past = Past(
    stdoutChunks: seq<string>, stderrTexts: seq<string>, exit: Option<Exit>,
    sent: seq<Signal>, seenDead: bool, settlements: seq<Settlement>)

  datatype RunState = RunState(
    config: Config, output: Output, timers: Timers, listeners: Listeners, parent: ParentSignalState,
    timedOut: bool, settled: bool, waitingForKillGrace: bool,
    childClosedResult: Option<Exit>, parentSignalPending: Option<Signal>,
    past: Past)

  function Spawned(hasPid: bool, limit: Limit, rejectOnFailure: bool): RunState {
    RunState(Config(hasPid, ResolveOutputLimit(limit), rejectOnFailure),
             Output(Capture("", 0), Capture("", 0)),
             Timers(true, Disarmed), Listeners(RELAYED_SIGNALS, true, true), ParentSignalState(None, false),
             false, false, false, None, None,
             Past([], [], None, [], false, []))
  }

  /** A limit is never 0: `slice(-0)` would keep everything. */
  predicate Wired(s: RunState) {
    s.config.maxOutputChars >= 1
  }

  /** Sends a signal to the process group; a failure other than ESRCH leaves a note on stderr. */
  function SignalChild(s: RunState, signal: Signal, failure: Option<string>): RunState
    requires Wired(s)
  {
    var sent := s.past.sent + [signal];
    if s.config.hasPid && failure.Some? then
      s.(output := s.output.(stderr := AppendBounded(s.output.stderr, failure.value, s.config.maxOutputChars)),
         past := s.past.(sent := sent, stderrTexts := s.past.stderrTexts + [failure.value]))
    else
      s.(past := s.past.(sent := sent))
  }

  /** The process group answers signal 0; a child that never started has no group. */
  predicate GroupIsAlive(s: RunState, alive: bool) {
    s.config.hasPid && alive
  }

  function SeenDead(s: RunState): RunState {
    s.(past := s.past.(seenDead := true))
  }

  function Settle(s: RunState, settlement: Settlement): RunState {
    if s.settled then s
    else
      var kill := if s.parentSignalPending.None? then Disarmed else s.timers.kill;
      s.(settled := true, timers := Timers(false, kill), listeners := s.listeners.(signals := {}),
         past := s.past.(settlements := s.past.settlements + [settlement]))
  }

  function CloseSettlement(s: RunState, exit: Exit): Settlement {
    var code := if exit.code.Some? then exit.code.value else 1;
    if s.timedOut then RejectedTimedOut
    else if code != 0 && s.config.rejectOnFailure then RejectedFailed
    else if code == 0 && s.output.stdout.truncatedChars > 0 then RejectedTruncated
    else Resolved(code, s.output.stderr, s.output.stdout.text)
  }

  function FinishClose(s: RunState, exit: Exit): RunState {
    Settle(s, CloseSettlement(s, exit))
  }

  function ScheduleKill(s: RunState): RunState {
    if s.waitingForKillGrace then s
    else s.(waitingForKillGrace := true, timers := s.timers.(kill := AfterTimeout))
  }

  datatype Event =
    | Stdout(chunk: string)
    | Stderr(chunk: string)
    | ChildError
    | Close(exit: Exit, alive: bool)
    | Timeout(failure: Option<string>)
    | KillTimer(failure: Option<string>)
    | ParentSignal(signal: Signal, failure: Option<string>, alive: bool)

  /** Which callbacks the runtime can still call: the streams end before `close`. */
  predicate Enabled(s: RunState, e: Event) {
    match e
    case Stdout(_) => s.listeners.close
    case Stderr(_) => s.listeners.close
    case ChildError => s.listeners.error
    case Close(_, _) => s.listeners.close
    case Timeout(_) => s.timers.timeout
    case KillTimer(_) => !s.timers.kill.Disarmed?
    case ParentSignal(signal, _, _) => signal in s.listeners.signals
  }

  function HandleStdout(s: RunState, chunk: string): RunState
    requires Wired(s)
  {
    s.(output := s.output.(stdout := AppendBounded(s.output.stdout, chunk, s.config.maxOutputChars)),
       past := s.past.(stdoutChunks := s.past.stdoutChunks + [chunk]))
  }

  function HandleStderr(s: RunState, chunk: string): RunState
    requires Wired(s)
  {
    s.(output := s.output.(stderr := AppendBounded(s.output.stderr, chunk, s.config.maxOutputChars)),
       past := s.past.(stderrTexts := s.past.stderrTexts + [chunk]))
  }

  function HandleChildError(s: RunState): RunState {
    Settle(s.(listeners := s.listeners.(error := false)), RejectedError)
  }

  function HandleTimeout(s: RunState, failure: Option<string>): RunState
    requires Wired(s)
  {
    ScheduleKill(SignalChild(s.(timedOut := true, timers := s.timers.(timeout := false)), SIGTERM, failure))
  }

  function Killed(s: RunState, failure: Option<string>): RunState
    requires Wired(s)
  {
    SignalChild(s.(waitingForKillGrace := false, timers := s.timers.(kill := Disarmed)), SIGKILL, failure)
  }

  function HandleKillTimer(s: RunState, failure: Option<string>): RunState
    requires Wired(s)
  {
    var killed := Killed(s, failure);
    if s.timers.kill.AfterRelay? then killed.(parent := killed.parent.(done := true))
    else if s.childClosedResult.Some? then FinishClose(killed, s.childClosedResult.value)
    else killed
  }

  function Relayed(s: RunState, signal: Signal, failure: Option<string>): RunState
    requires Wired(s)
  {
    SignalChild(s.(parentSignalPending := Some(signal), parent := s.parent.(signal := Some(signal)),
                   listeners := s.listeners.(signals := {})), signal, failure)
  }

  function HandleParentSignal(s: RunState, signal: Signal, failure: Option<string>, alive: bool): RunState
    requires Wired(s)
  {
    var relayed := Relayed(s, signal, failure);
    if GroupIsAlive(s, alive)
    then relayed.(waitingForKillGrace := true, timers := relayed.timers.(kill := AfterRelay(signal)))
    else SeenDead(relayed).(parent := relayed.parent.(done := true))
  }

  function Heard(s: RunState, exit: Exit): RunState {
    s.(listeners := s.listeners.(close := false), past := s.past.(exit := Some(exit)))
  }

  function HandleClose(s: RunState, exit: Exit, alive: bool): RunState {
    var heard := Heard(s, exit);
    if s.parentSignalPending.Some? then
      if GroupIsAlive(s, alive) then heard.(childClosedResult := Some(exit))
      else SeenDead(heard).(timers := s.timers.(kill := Disarmed), parent := s.parent.(done := true))
    else if s.waitingForKillGrace then
      if GroupIsAlive(s, alive) then heard.(childClosedResult := Some(exit))
      else FinishClose(SeenDead(heard), exit)
    else
      FinishClose(heard, exit)
  }

  function Handle(s: RunState, e: Event): RunState
    requires Wired(s)
  {
    match e
    case Stdout(chunk) => HandleStdout(s, chunk)
    case Stderr(chunk) => HandleStderr(s, chunk)
    case ChildError => HandleChildError(s)
    case Close(exit, alive) => HandleClose(s, exit, alive)
    case Timeout(failure) => HandleTimeout(s, failure)
    case KillTimer(failure) => HandleKillTimer(s, failure)
    case ParentSignal(signal, failure, alive) => HandleParentSignal(s, signal, failure, alive)
  }

  /** The signal with which the callback asks for a re-raise, if it does. */
  function Asks(s: RunState, e: Event): Option<Signal> {
    match e
    case Close(_, alive) => if GroupIsAlive(s, alive) then None else s.parentSignalPending
    case KillTimer(_) => if s.timers.kill.AfterRelay? then Some(s.timers.kill.relayed) else None
    case ParentSignal(signal, _, alive) => if GroupIsAlive(s, alive) then None else Some(signal)
    case _ => None
  }

  /** Every run ever started, those still in the shared set, and the signals re-raised so far. */
  datatype World = World(runs: seq<RunState>, active: set<nat>, raised: seq<Signal>)

  const START := World([], {}, [])

  datatype WorldEvent =
    | Spawn(hasPid: bool, limit: Limit, rejectOnFailure: bool)
    | At(run: nat, event: Event)

  predicate MayHappen(w: World, e: WorldEvent) {
    e.At? ==> e.run < |w.runs| && Wired(w.runs[e.run]) && Enabled(w.runs[e.run], e.event)
  }

  /** Whether the loop over the shared set reaches its end and the parent signals itself. */
  predicate ReadyToReraise(runs: seq<RunState>, active: set<nat>) {
    forall i <- active :: i < |runs| && runs[i].parent.signal.Some? && runs[i].parent.done
  }

  function Step(w: World, e: WorldEvent): World
    requires MayHappen(w, e)
  {
    match e
    case Spawn(hasPid, limit, rejectOnFailure) =>
      World(w.runs + [Spawned(hasPid, limit, rejectOnFailure)], w.active + {|w.runs|}, w.raised)
    case At(i, event) =>
      var s, reraise := Handle(w.runs[i], event), Asks(w.runs[i], event);
      var runs := w.runs[i := s];
      var leaves := !w.runs[i].settled && s.settled && s.parentSignalPending.None?;
      var active := if leaves then w.active - {i} else w.active;
      World(runs, active,
            if reraise.Some? && ReadyToReraise(runs, active) then w.raised + [reraise.value] else w.raised)
  }

  /** The worlds an interleaving passes through; what cannot happen is skipped. */
  function Execute(events: seq<WorldEvent>): World {
    if events == [] then START
    else
      var before := Execute(events[..|events| - 1]);
      var last := events[|events| - 1];
      if MayHappen(before, last) then Step(before, last) else before
  }
}
