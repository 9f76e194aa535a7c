/** The callbacks of `runProcess`, over the closure variables of each run and the set all runs share. */
module RunProcess {
  import opened Wrappers
  import opened ProcessSafety
  import opened ProcessSpec

  /** One call of `runProcess`: its closure variables, its entry in the shared set, and its effects. */
  class Run {
    const config: Config
    var stdout: Capture
    var stderr: Capture
    var timedOut: bool
    var settled: bool
    var waitingForKillGrace: bool
    var childClosedResult: Option<Exit>
    var parentSignalPending: Option<Signal>
    var parentSignalState: ParentSignalState
    // held by the runtime
    var timers: Timers
    var listeners: Listeners
    /** The output so far, and the effects: signals sent, probes, calls of `resolve` and `reject`. */
    ghost var past: Past

    ghost function State(): RunState
      reads this
    {
      RunState(config, Output(stdout, stderr), timers, listeners, parentSignalState,
               timedOut, settled, waitingForKillGrace, childClosedResult, parentSignalPending, past)
    }

    constructor (hasPid: bool, limit: Limit, rejectOnFailure: bool)
      ensures State() == Spawned(hasPid, limit, rejectOnFailure)
    {
      config := Config(hasPid, ResolveOutputLimit(limit), rejectOnFailure);
      stdout, stderr := Capture("", 0), Capture("", 0);
      timedOut, settled, waitingForKillGrace := false, false, false;
      childClosedResult, parentSignalPending := None, None;
      parentSignalState := ParentSignalState(None, false);
      timers, listeners := Timers(true, Disarmed), Listeners(RELAYED_SIGNALS, true, true);
      past := Past([], [], None, [], false, []);
    }

    method SignalChild(toSend: Signal, failure: Option<string>)
      requires Wired(State())
      modifies this`stderr, this`past
      ensures State() == ProcessSpec.SignalChild(old(State()), toSend, failure)
    {
      past := past.(sent := past.sent + [toSend]);
      if config.hasPid && failure.Some? {
        stderr := AppendBounded(stderr, failure.value, config.maxOutputChars);
        past := past.(stderrTexts := past.stderrTexts + [failure.value]);
      }
    }

    method ProcessGroupIsAlive(answers: bool) returns (alive: bool)
      modifies this`past
      ensures alive == GroupIsAlive(old(State()), answers)
      ensures State() == if alive then old(State()) else SeenDead(old(State()))
    {
      alive := config.hasPid && answers;
      if !alive {
        past := past.(seenDead := true);
      }
    }

    method ScheduleKill()
      modifies this`waitingForKillGrace, this`timers
      ensures State() == ProcessSpec.ScheduleKill(old(State()))
    {
      if waitingForKillGrace {
        return;
      }
      waitingForKillGrace := true;
      timers := timers.(kill := AfterTimeout);
    }
  }

  class Supervisor {
    /** Every run ever started; the shared set holds some of them. */
    var runs: seq<Run>
    var activeRunProcessParentSignals: set<Run>
    /** Signals the parent process has sent to itself. */
    var raised: seq<Signal>

    ghost predicate Valid()
      reads this, runs
    {
      && (forall i, j :: 0 <= i < j < |runs| ==> runs[i] != runs[j])
      && (forall r <- activeRunProcessParentSignals :: r in runs)
      && (forall i :: 0 <= i < |runs| ==> Wired(runs[i].State()))
    }

    ghost function Model(): World
      reads this, runs
    {
      World(seq(|runs|, i requires 0 <= i < |runs| reads this, runs => runs[i].State()),
            (set i | 0 <= i < |runs| && runs[i] in activeRunProcessParentSignals),
            raised)
    }

    constructor ()
      ensures Valid() && Model() == START && runs == []
    {
      runs, activeRunProcessParentSignals, raised := [], {}, [];
      new;
      assert Model().active == {};
    }

    method Start(hasPid: bool, limit: Limit, rejectOnFailure: bool)
      requires Valid()
      modifies this
      ensures Valid() && old(runs) < runs && |runs| == |old(runs)| + 1 && fresh(runs[|old(runs)|])
      ensures Model() == Step(old(Model()), Spawn(hasPid, limit, rejectOnFailure))
    {
      var run := new Run(hasPid, limit, rejectOnFailure);
      runs := runs + [run];
      activeRunProcessParentSignals := activeRunProcessParentSignals + {run};
      assert Model().runs == old(Model().runs) + [run.State()];
      assert Model().active == old(Model().active) + {|old(runs)|};
    }

    // ----- shared tails of the callbacks

    ghost predicate AllDone()
      reads this, activeRunProcessParentSignals
    {
      forall r <- activeRunProcessParentSignals :: r.parentSignalState.signal.Some? && r.parentSignalState.done
    }

    method MaybeReraise(signal: Signal)
      modifies this`raised
      ensures raised == old(raised) + if AllDone() then [signal] else []
    {
      var rest := activeRunProcessParentSignals;
      while rest != {}
        invariant rest <= activeRunProcessParentSignals && raised == old(raised)
        invariant forall r <- activeRunProcessParentSignals - rest :: r.parentSignalState.signal.Some? && r.parentSignalState.done
      {
        var state :| state in rest;
        if state.parentSignalState.signal.None? || !state.parentSignalState.done {
          return;
        }
        rest := rest - {state};
      }
      raised := raised + [signal];
    }

    /** A run leaves the shared set when it settles without a pending parent signal. */
    twostate predicate LeavesIfSettled(r: Run)
      reads this, r
    {
      activeRunProcessParentSignals ==
      if !old(r.settled) && r.settled && r.parentSignalPending.None? then old(activeRunProcessParentSignals) - {r}
      else old(activeRunProcessParentSignals)
    }

    method Settle(r: Run, settlement: Settlement)
      modifies this`activeRunProcessParentSignals, r
      ensures r.State() == ProcessSpec.Settle(old(r.State()), settlement)
      ensures LeavesIfSettled(r)
    {
      if r.settled {
        return;
      }
      r.settled := true;
      r.timers := r.timers.(timeout := false);
      if r.parentSignalPending.None? {
        r.timers := r.timers.(kill := Disarmed);
        activeRunProcessParentSignals := activeRunProcessParentSignals - {r};
      }
      r.listeners := r.listeners.(signals := {});
      r.past := r.past.(settlements := r.past.settlements + [settlement]);
    }

    method FinishClose(r: Run, exit: Exit)
      modifies this`activeRunProcessParentSignals, r
      ensures r.State() == ProcessSpec.FinishClose(old(r.State()), exit)
      ensures LeavesIfSettled(r)
    {
      var code := match exit.code case Some(c) => c case None => 1;
      if r.timedOut {
        Settle(r, RejectedTimedOut);
      } else if code != 0 && r.config.rejectOnFailure {
        Settle(r, RejectedFailed);
      } else if code == 0 && r.stdout.truncatedChars > 0 {
        Settle(r, RejectedTruncated);
      } else {
        Settle(r, Resolved(code, r.stderr, r.stdout.text));
      }
    }

    // ----- callbacks

    method OnStdoutData(r: Run, chunk: string)
      requires Wired(r.State())
      modifies r`stdout, r`past
      ensures r.State() == HandleStdout(old(r.State()), chunk)
    {
      r.stdout := AppendBounded(r.stdout, chunk, r.config.maxOutputChars);
      r.past := r.past.(stdoutChunks := r.past.stdoutChunks + [chunk]);
    }

    method OnStderrData(r: Run, chunk: string)
      requires Wired(r.State())
      modifies r`stderr, r`past
      ensures r.State() == HandleStderr(old(r.State()), chunk)
    {
      r.stderr := AppendBounded(r.stderr, chunk, r.config.maxOutputChars);
      r.past := r.past.(stderrTexts := r.past.stderrTexts + [chunk]);
    }

    method OnChildError(r: Run)
      modifies this`activeRunProcessParentSignals, r
      ensures r.State() == HandleChildError(old(r.State()))
      ensures LeavesIfSettled(r)
    {
      r.listeners := r.listeners.(error := false);
      Settle(r, RejectedError);
    }

    method OnClose(r: Run, exit: Exit, answers: bool)
      modifies this`activeRunProcessParentSignals, this`raised, r
      ensures r.State() == HandleClose(old(r.State()), exit, answers)
      ensures LeavesIfSettled(r)
      ensures raised == old(raised) + Reraised(Asks(old(r.State()), Close(exit, answers)), AllDone())
    {
      r.listeners := r.listeners.(close := false);
      r.past := r.past.(exit := Some(exit));
      if r.parentSignalPending.Some? {
        var alive := r.ProcessGroupIsAlive(answers);
        if alive {
          r.childClosedResult := Some(exit);
          return;
        }
        r.timers := r.timers.(kill := Disarmed);
        r.parentSignalState := r.parentSignalState.(done := true);
        MaybeReraise(r.parentSignalPending.value);
        return;
      }
      if r.waitingForKillGrace {
        var alive := r.ProcessGroupIsAlive(answers);
        if alive {
          r.childClosedResult := Some(exit);
          return;
        }
      }
      FinishClose(r, exit);
    }

    method OnTimeout(r: Run, failure: Option<string>)
      requires Wired(r.State())
      modifies r
      ensures r.State() == HandleTimeout(old(r.State()), failure)
    {
      r.timers := r.timers.(timeout := false);
      r.timedOut := true;
      r.SignalChild(SIGTERM, failure);
      r.ScheduleKill();
    }

    /** The kill timer holds one of two closures: the one of `scheduleKill`, or the one of a relay. */
    method OnKillTimer(r: Run, failure: Option<string>)
      requires Wired(r.State()) && Enabled(r.State(), KillTimer(failure))
      modifies this`activeRunProcessParentSignals, this`raised, r
      ensures r.State() == HandleKillTimer(old(r.State()), failure)
      ensures LeavesIfSettled(r)
      ensures raised == old(raised) + Reraised(Asks(old(r.State()), KillTimer(failure)), AllDone())
    {
      var closure := r.timers.kill;
      r.waitingForKillGrace := false;
      r.timers := r.timers.(kill := Disarmed);
      r.SignalChild(SIGKILL, failure);
      if closure.AfterRelay? {
        r.parentSignalState := r.parentSignalState.(done := true);
        MaybeReraise(closure.relayed);
      } else if r.childClosedResult.Some? {
        FinishClose(r, r.childClosedResult.value);
      }
    }

    method OnParentSignal(r: Run, signal: Signal, failure: Option<string>, answers: bool)
      requires Wired(r.State())
      modifies this`raised, r
      ensures r.State() == HandleParentSignal(old(r.State()), signal, failure, answers)
      ensures raised == old(raised) + Reraised(Asks(old(r.State()), ParentSignal(signal, failure, answers)), AllDone())
    {
      r.parentSignalPending := Some(signal);
      r.parentSignalState := r.parentSignalState.(signal := Some(signal));
      r.SignalChild(signal, failure);
      r.listeners := r.listeners.(signals := {});
      var alive := r.ProcessGroupIsAlive(answers);
      if !alive {
        r.parentSignalState := r.parentSignalState.(done := true);
        MaybeReraise(signal);
        return;
      }
      r.waitingForKillGrace := true;
      r.timers := r.timers.(kill := AfterRelay(signal));
    }

    // ----- the event loop

    /** The model after a callback that has touched one run and, at most, taken it out of the shared set. */
    lemma OneRunMoved(before: World, i: nat, e: Event)
      requires Valid() && i < |runs| == |before.runs|
      requires MayHappen(before, At(i, e))
      requires forall j <- before.active :: j < |runs|
      requires forall j :: 0 <= j < |runs| && j != i ==> runs[j].State() == before.runs[j]
      requires runs[i].State() == Handle(before.runs[i], e)
      requires forall j :: 0 <= j < |runs| && j != i ==> (runs[j] in activeRunProcessParentSignals <==> j in before.active)
      requires runs[i] in activeRunProcessParentSignals <==>
               i in before.active && (before.runs[i].settled || !runs[i].settled || runs[i].parentSignalPending.Some?)
      ensures Model().runs == Step(before, At(i, e)).runs && Model().active == Step(before, At(i, e)).active
      ensures AllDone() == ReadyToReraise(Model().runs, Model().active)
    {
      assert Model().runs == before.runs[i := runs[i].State()];
      assert forall r <- activeRunProcessParentSignals :: exists j :: 0 <= j < |runs| && runs[j] == r && j in Model().active;
    }

    method Dispatch(r: Run, e: Event)
      requires Wired(r.State()) && Enabled(r.State(), e)
      modifies this`activeRunProcessParentSignals, this`raised, r
      ensures r.State() == Handle(old(r.State()), e)
      ensures LeavesIfSettled(r)
      ensures raised == old(raised) + Reraised(Asks(old(r.State()), e), AllDone())
    {
      match e {
        case Stdout(chunk) => OnStdoutData(r, chunk);
        case Stderr(chunk) => OnStderrData(r, chunk);
        case ChildError => OnChildError(r);
        case Close(exit, answers) => OnClose(r, exit, answers);
        case Timeout(failure) => OnTimeout(r, failure);
        case KillTimer(failure) => OnKillTimer(r, failure);
        case ParentSignal(signal, failure, answers) => OnParentSignal(r, signal, failure, answers);
      }
    }

    method Deliver(i: nat, e: Event)
      requires Valid() && MayHappen(Model(), At(i, e))
      modifies this, runs
      ensures Valid() && runs == old(runs)
      ensures Model() == Step(old(Model()), At(i, e))
    {
      ghost var before := Model();
      Dispatch(runs[i], e);
      OneRunMoved(before, i, e);
    }
  }

  /** Whether the runtime can call the callback. */
  method MayCall(r: Run, e: Event) returns (b: bool)
    ensures b == Enabled(r.State(), e)
  {
    match e {
      case Stdout(_) => b := r.listeners.close;
      case Stderr(_) => b := r.listeners.close;
      case ChildError => b := r.listeners.error;
      case Close(_, _) => b := r.listeners.close;
      case Timeout(_) => b := r.timers.timeout;
      case KillTimer(_) => b := !r.timers.kill.Disarmed?;
      case ParentSignal(signal, _, _) => b := signal in r.listeners.signals;
    }
  }

  /** One event, if it can happen. */
  method Offer(s: Supervisor, e: WorldEvent)
    requires s.Valid()
    modifies s, s.runs
    ensures s.Valid()
    ensures s.runs == old(s.runs)
            || (old(s.runs) < s.runs && |s.runs| == |old(s.runs)| + 1 && fresh(s.runs[|old(s.runs)|]))
    ensures s.Model() == if MayHappen(old(s.Model()), e) then Step(old(s.Model()), e) else old(s.Model())
  {
    match e {
      case Spawn(hasPid, limit, rejectOnFailure) => s.Start(hasPid, limit, rejectOnFailure);
      case At(i, event) =>
        if i < |s.runs| {
          var enabled := MayCall(s.runs[i], event);
          if enabled {
            s.Deliver(i, event);
          }
        }
    }
  }

  /**
   Any interleaving of starts and callbacks, over the objects: they end where the specification does, so
   everything shown of its worlds holds of them.
   */
  method Drive(events: seq<WorldEvent>) returns (s: Supervisor)
    ensures fresh(s) && s.Valid() && s.Model() == Execute(events) && WorldInvariant(s.Model())
  {
    s := new Supervisor();
    for k := 0 to |events|
      invariant fresh(s) && fresh(s.runs) && s.Valid() && s.Model() == Execute(events[..k])
    {
      assert events[..k + 1][..k] == events[..k];
      Offer(s, events[k]);
    }
    assert events[..|events|] == events;
    ExecuteKeepsInvariant(events);
  }

  function Reraised(asked: Option<Signal>, allDone: bool): seq<Signal> {
    if asked.Some? && allDone then [asked.value] else []
  }
}
