/** What every interleaving of any number of supervised runs keeps. */
module ProcessSafety {
  import opened Wrappers
  import opened Text
  import opened ProcessSpec

  // ----- bounded capture

  /** The kept text is the tail of everything received, and nothing is unaccounted for. */
  predicate KeepsTail(capture: Capture, all: string, limit: nat) {
    && |capture.text| + capture.truncatedChars == |all|
    && |capture.text| == (if |all| < limit then |all| else limit)
    && capture.text == all[|all| - |capture.text|..]
  }

  lemma AppendKeepsTail(capture: Capture, all: string, chunk: string, limit: nat)
    requires limit >= 1 && KeepsTail(capture, all, limit)
    ensures KeepsTail(AppendBounded(capture, chunk, limit), all + chunk, limit)
  {
    var k := |all| - |capture.text|;
    var next := capture.text + chunk;
    assert next == (all + chunk)[k..];
    if |next| > limit {
      assert next[|next| - limit..] == (all + chunk)[|all + chunk| - limit..];
    }
  }

  /** Feeding any chunks, in order, into an empty capture. */
  function Captured(chunks: seq<string>, limit: nat): Capture
    requires limit >= 1
  {
    if chunks == [] then Capture("", 0)
    else AppendBounded(Captured(chunks[..|chunks| - 1], limit), chunks[|chunks| - 1], limit)
  }

  lemma {:induction false} CaptureIsLossless(chunks: seq<string>, limit: nat)
    requires limit >= 1
    ensures KeepsTail(Captured(chunks, limit), Concat(chunks), limit)
    ensures Captured(chunks, limit).truncatedChars == 0 <==> Captured(chunks, limit).text == Concat(chunks)
  {
    if chunks != [] {
      CaptureIsLossless(chunks[..|chunks| - 1], limit);
      AppendKeepsTail(Captured(chunks[..|chunks| - 1], limit), Concat(chunks[..|chunks| - 1]), chunks[|chunks| - 1], limit);
    }
  }

  // ----- what one run keeps

  /** The process group was seen dead, or SIGKILL was sent to it. */
  predicate GroupEnded(s: RunState) {
    s.past.seenDead || SIGKILL in s.past.sent
  }

  function CodeOf(exit: Exit): int {
    match exit.code case Some(code) => code case None => 1
  }

  /** The child has closed, and nothing can touch the output any more. */
  predicate IsFinal(s: RunState) {
    !s.listeners.close && s.past.exit.Some? && s.timers.kill.Disarmed?
  }

  /** No run settles in a way its state does not call for. */
  predicate HasCause(s: RunState, o: Settlement) {
    match o
    case Resolved(code, stderr, stdout) =>
      && IsFinal(s) && !s.timedOut && code == CodeOf(s.past.exit.value)
      && (if code == 0 then s.output.stdout.truncatedChars == 0 else !s.config.rejectOnFailure)
      && stderr == s.output.stderr && stdout == s.output.stdout.text
    case RejectedTimedOut => IsFinal(s) && s.timedOut
    case RejectedFailed => IsFinal(s) && !s.timedOut && s.config.rejectOnFailure && CodeOf(s.past.exit.value) != 0
    case RejectedTruncated => IsFinal(s) && !s.timedOut && CodeOf(s.past.exit.value) == 0 && s.output.stdout.truncatedChars > 0
    case RejectedError => !s.listeners.error
  }

  predicate SettlesOnce(s: RunState) {
    && |s.past.settlements| == (if s.settled then 1 else 0)
    && (s.settled ==> !s.timers.timeout && s.listeners.signals == {})
    && (s.timedOut ==> !s.timers.timeout)
    && (s.past.exit.Some? <==> !s.listeners.close)
    && (s.childClosedResult.Some? ==> s.childClosedResult == s.past.exit)
    && (forall o <- s.past.settlements :: HasCause(s, o))
  }

  predicate RelaysFirst(s: RunState) {
    && s.parentSignalPending == s.parent.signal
    && (s.parent.signal.Some? ==> s.listeners.signals == {} && s.parent.signal.value in s.past.sent)
    && (s.parent.signal.None? && !s.settled ==> s.listeners.signals == {SIGINT, SIGTERM, SIGHUP})
    && (s.parent.done ==> s.parent.signal.Some? && GroupEnded(s))
    && (s.timers.kill.AfterRelay? ==> s.parent.signal == Some(s.timers.kill.relayed))
    && (s.timers.kill.AfterRelay? <==> s.parent.signal.Some? && !s.parent.done)
    && (s.timers.kill.AfterRelay? ==> s.waitingForKillGrace)
  }

  predicate TimesOut(s: RunState) {
    && (s.timedOut ==> SIGTERM in s.past.sent)
    && (s.waitingForKillGrace ==> s.timedOut)
    && (RejectedTimedOut in s.past.settlements ==> GroupEnded(s) && !s.listeners.close)
  }

  /** A run that still waits has a timer that will end the wait. */
  predicate NeverStuck(s: RunState) {
    if s.settled then s.timers.kill.Disarmed?
    else
      && s.timers.timeout == !s.timedOut
      && s.waitingForKillGrace == s.timers.kill.AfterTimeout?
      && (s.timedOut && s.timers.kill.Disarmed? ==> SIGKILL in s.past.sent)
      && (!s.listeners.close ==> s.childClosedResult.Some? && s.timers.kill.AfterTimeout?)
  }

  predicate Controlled(s: RunState) {
    && Wired(s) && SettlesOnce(s) && RelaysFirst(s) && (!s.listeners.error ==> s.settled)
    && (s.parent.signal.None? ==> TimesOut(s) && NeverStuck(s))
  }

  /** The captures hold the tails of everything that was to be captured. */
  predicate Lossless(s: RunState) {
    && KeepsTail(s.output.stdout, Concat(s.past.stdoutChunks), s.config.maxOutputChars)
    && KeepsTail(s.output.stderr, Concat(s.past.stderrTexts), s.config.maxOutputChars)
  }

  predicate RunInvariant(s: RunState) {
    Controlled(s) && Lossless(s)
  }

  lemma SettleKeepsControl(s: RunState, o: Settlement)
    requires Wired(s) && SettlesOnce(s) && RelaysFirst(s) && !s.settled
    requires s.parent.signal.None? ==> TimesOut(s)
    requires HasCause(Settle(s, o), o)
    requires o == RejectedTimedOut && s.parent.signal.None? ==> GroupEnded(s) && !s.listeners.close
    ensures Controlled(Settle(s, o)) && Settle(s, o).settled
  {
  }

  lemma KilledKeepsControl(s: RunState, failure: Option<string>)
    requires Controlled(s) && s.timers.kill.AfterTimeout?
    ensures
      var t := Killed(s, failure);
      && Wired(t) && SettlesOnce(t) && RelaysFirst(t) && (!t.listeners.error ==> t.settled)
      && (t.parent.signal.None? ==> TimesOut(t) && !t.settled && SIGKILL in t.past.sent)
  {
  }

  lemma KillTimerKeepsControl(s: RunState, failure: Option<string>)
    requires Controlled(s) && !s.timers.kill.Disarmed?
    ensures Controlled(HandleKillTimer(s, failure))
  {
    if s.timers.kill.AfterTimeout? {
      var killed := Killed(s, failure);
      KilledKeepsControl(s, failure);
      if s.childClosedResult.Some? && !s.settled {
        SettleKeepsControl(killed, CloseSettlement(killed, s.childClosedResult.value));
      }
    }
  }

  lemma CloseKeepsControl(s: RunState, exit: Exit, alive: bool)
    requires Controlled(s) && s.listeners.close
    ensures Controlled(HandleClose(s, exit, alive))
  {
    var heard := Heard(s, exit);
    if s.parent.signal.None? && !s.settled {
      if s.waitingForKillGrace {
        SettleKeepsControl(SeenDead(heard), CloseSettlement(SeenDead(heard), exit));
      } else {
        SettleKeepsControl(heard, CloseSettlement(heard, exit));
      }
    }
  }

  lemma TimeoutKeepsControl(s: RunState, failure: Option<string>)
    requires Controlled(s) && s.timers.timeout
    ensures Controlled(HandleTimeout(s, failure))
  {
  }

  lemma ParentSignalKeepsControl(s: RunState, signal: Signal, failure: Option<string>, alive: bool)
    requires Controlled(s) && signal in s.listeners.signals
    ensures Controlled(HandleParentSignal(s, signal, failure, alive))
  {
  }

  lemma HandleKeepsControl(s: RunState, e: Event)
    requires Controlled(s) && Enabled(s, e)
    ensures Controlled(Handle(s, e))
  {
    match e
    case Stdout(_) =>
    case Stderr(_) =>
    case ChildError =>
      if !s.settled {
        SettleKeepsControl(s.(listeners := s.listeners.(error := false)), RejectedError);
      }
    case Close(exit, alive) => CloseKeepsControl(s, exit, alive);
    case Timeout(failure) => TimeoutKeepsControl(s, failure);
    case KillTimer(failure) => KillTimerKeepsControl(s, failure);
    case ParentSignal(signal, failure, alive) => ParentSignalKeepsControl(s, signal, failure, alive);
  }

  lemma ConcatOneMore(parts: seq<string>, part: string)
    ensures Concat(parts + [part]) == Concat(parts) + part
  {
    assert (parts + [part])[..|parts|] == parts;
  }

  lemma StdoutIsLossless(s: RunState, chunk: string)
    requires Wired(s) && Lossless(s)
    ensures Lossless(HandleStdout(s, chunk))
  {
    AppendKeepsTail(s.output.stdout, Concat(s.past.stdoutChunks), chunk, s.config.maxOutputChars);
    ConcatOneMore(s.past.stdoutChunks, chunk);
  }

  lemma StderrIsLossless(s: RunState, text: string)
    requires Wired(s) && Lossless(s)
    ensures Lossless(HandleStderr(s, text))
  {
    AppendKeepsTail(s.output.stderr, Concat(s.past.stderrTexts), text, s.config.maxOutputChars);
    ConcatOneMore(s.past.stderrTexts, text);
  }

  /** It is a matter of the captures and what was to be captured. */
  lemma StaysLossless(s: RunState, t: RunState)
    requires Lossless(s) && t.config == s.config && t.output == s.output
    requires t.past.stdoutChunks == s.past.stdoutChunks && t.past.stderrTexts == s.past.stderrTexts
    ensures Lossless(t)
  {
  }

  lemma SignalIsLossless(s: RunState, signal: Signal, failure: Option<string>)
    requires Wired(s) && Lossless(s)
    ensures Lossless(SignalChild(s, signal, failure))
  {
    if s.config.hasPid && failure.Some? {
      StderrIsLossless(s, failure.value);
      StaysLossless(HandleStderr(s, failure.value), SignalChild(s, signal, failure));
    }
  }

  lemma TimeoutIsLossless(s: RunState, failure: Option<string>)
    requires Wired(s) && Lossless(s)
    ensures Lossless(HandleTimeout(s, failure))
  {
    var marked := s.(timedOut := true, timers := s.timers.(timeout := false));
    StaysLossless(s, marked);
    SignalIsLossless(marked, SIGTERM, failure);
    StaysLossless(SignalChild(marked, SIGTERM, failure), HandleTimeout(s, failure));
  }

  lemma SettleIsLossless(s: RunState, o: Settlement)
    requires Lossless(s)
    ensures Lossless(Settle(s, o))
  {
    StaysLossless(s, Settle(s, o));
  }

  lemma KillTimerIsLossless(s: RunState, failure: Option<string>)
    requires Wired(s) && Lossless(s)
    ensures Lossless(HandleKillTimer(s, failure))
  {
    var idle, killed := s.(waitingForKillGrace := false, timers := s.timers.(kill := Disarmed)), Killed(s, failure);
    StaysLossless(s, idle);
    SignalIsLossless(idle, SIGKILL, failure);
    if s.timers.kill.AfterRelay? {
      StaysLossless(killed, HandleKillTimer(s, failure));
    } else if s.childClosedResult.Some? {
      SettleIsLossless(killed, CloseSettlement(killed, s.childClosedResult.value));
    }
  }

  lemma CloseIsLossless(s: RunState, exit: Exit, alive: bool)
    requires Lossless(s)
    ensures Lossless(HandleClose(s, exit, alive))
  {
    var heard := Heard(s, exit);
    StaysLossless(s, heard);
    StaysLossless(s, SeenDead(heard));
    if s.parentSignalPending.Some? {
      StaysLossless(s, HandleClose(s, exit, alive));
    } else {
      SettleIsLossless(heard, CloseSettlement(heard, exit));
      SettleIsLossless(SeenDead(heard), CloseSettlement(SeenDead(heard), exit));
      if s.waitingForKillGrace && GroupIsAlive(s, alive) {
        StaysLossless(s, HandleClose(s, exit, alive));
      }
    }
  }

  lemma ParentSignalIsLossless(s: RunState, signal: Signal, failure: Option<string>, alive: bool)
    requires Wired(s) && Lossless(s)
    ensures Lossless(HandleParentSignal(s, signal, failure, alive))
  {
    var pending := s.(parentSignalPending := Some(signal), parent := s.parent.(signal := Some(signal)),
                      listeners := s.listeners.(signals := {}));
    StaysLossless(s, pending);
    SignalIsLossless(pending, signal, failure);
    StaysLossless(Relayed(s, signal, failure), HandleParentSignal(s, signal, failure, alive));
  }

  lemma HandleKeepsInvariant(s: RunState, e: Event)
    requires RunInvariant(s) && Enabled(s, e)
    ensures RunInvariant(Handle(s, e))
  {
    HandleKeepsControl(s, e);
    match e
    case Stdout(chunk) => StdoutIsLossless(s, chunk);
    case Stderr(chunk) => StderrIsLossless(s, chunk);
    case ChildError =>
      StaysLossless(s, s.(listeners := s.listeners.(error := false)));
      SettleIsLossless(s.(listeners := s.listeners.(error := false)), RejectedError);
    case Close(exit, alive) => CloseIsLossless(s, exit, alive);
    case Timeout(failure) => TimeoutIsLossless(s, failure);
    case KillTimer(failure) => KillTimerIsLossless(s, failure);
    case ParentSignal(signal, failure, alive) => ParentSignalIsLossless(s, signal, failure, alive);
  }

  // ----- what all runs keep

  predicate IsDone(s: RunState) {
    s.settled && s.parent.signal.None?
  }

  predicate AllKeepInvariant(runs: seq<RunState>) {
    forall i :: 0 <= i < |runs| ==> RunInvariant(runs[i])
  }

  /** The shared set holds the runs that are not done. */
  predicate HoldsOpenRuns(active: set<nat>, runs: seq<RunState>) {
    && (forall i <- active :: i < |runs|)
    && (forall i :: 0 <= i < |runs| ==> (i !in active <==> IsDone(runs[i])))
  }

  predicate WorldInvariant(w: World) {
    AllKeepInvariant(w.runs) && HoldsOpenRuns(w.active, w.runs)
  }

  /** Only a relay changes the entry's signal; a re-raise is asked for with that signal. */
  lemma HandleRecordsRelay(s: RunState, e: Event)
    requires Controlled(s) && Enabled(s, e)
    ensures Handle(s, e).parent.signal == if e.ParentSignal? then Some(e.signal) else s.parent.signal
    ensures s.settled ==> Handle(s, e).settled && !e.ParentSignal?
    ensures Asks(s, e).Some? ==> Handle(s, e).parent.signal == Asks(s, e)
    ensures Handle(s, e).parentSignalPending == Handle(s, e).parent.signal
  {
    HandleKeepsControl(s, e);
  }

  lemma SpawnedRunIsFine(hasPid: bool, limit: Limit, rejectOnFailure: bool)
    ensures
      var s := Spawned(hasPid, limit, rejectOnFailure);
      RunInvariant(s) && !IsDone(s) && s.parent.signal.None?
  {
  }

  lemma OneMoreRun(runs: seq<RunState>, active: set<nat>, s: RunState)
    requires HoldsOpenRuns(active, runs) && !IsDone(s)
    ensures HoldsOpenRuns(active + {|runs|}, runs + [s])
  {
  }

  lemma OneMoreKeepsInvariant(runs: seq<RunState>, s: RunState)
    requires AllKeepInvariant(runs) && RunInvariant(s)
    ensures AllKeepInvariant(runs + [s])
  {
    var after := runs + [s];
    forall j | 0 <= j < |after|
      ensures RunInvariant(after[j])
    {
      assert after[j] == if j == |runs| then s else runs[j];
    }
  }

  lemma SpawnKeepsInvariant(w: World, e: WorldEvent)
    requires WorldInvariant(w) && e.Spawn?
    ensures WorldInvariant(Step(w, e))
  {
    SpawnedRunIsFine(e.hasPid, e.limit, e.rejectOnFailure);
    OneMoreRun(w.runs, w.active, Spawned(e.hasPid, e.limit, e.rejectOnFailure));
    OneMoreKeepsInvariant(w.runs, Spawned(e.hasPid, e.limit, e.rejectOnFailure));
  }

  lemma OneRunKeepsInvariant(runs: seq<RunState>, i: nat, s: RunState)
    requires AllKeepInvariant(runs) && i < |runs| && RunInvariant(s)
    ensures AllKeepInvariant(runs[i := s])
  {
    var after := runs[i := s];
    forall j | 0 <= j < |after|
      ensures RunInvariant(after[j])
    {
      assert after[j] == if j == i then s else runs[j];
    }
  }

  lemma OneRunLeaves(runs: seq<RunState>, active: set<nat>, i: nat, s: RunState, leaves: bool)
    requires HoldsOpenRuns(active, runs) && i < |runs|
    requires IsDone(s) <==> IsDone(runs[i]) || leaves
    ensures HoldsOpenRuns(if leaves then active - {i} else active, runs[i := s])
  {
  }

  lemma StepKeepsInvariant(w: World, e: WorldEvent)
    requires WorldInvariant(w) && MayHappen(w, e)
    ensures WorldInvariant(Step(w, e))
  {
    if e.Spawn? {
      SpawnKeepsInvariant(w, e);
    } else {
      var s, s' := w.runs[e.run], Handle(w.runs[e.run], e.event);
      HandleKeepsInvariant(s, e.event);
      HandleRecordsRelay(s, e.event);
      OneRunKeepsInvariant(w.runs, e.run, s');
      OneRunLeaves(w.runs, w.active, e.run, s', !s.settled && s'.settled && s'.parentSignalPending.None?);
    }
  }

  lemma {:induction false} ExecuteKeepsInvariant(events: seq<WorldEvent>)
    ensures WorldInvariant(Execute(events))
  {
    if events != [] {
      var before, last := Execute(events[..|events| - 1]), events[|events| - 1];
      ExecuteKeepsInvariant(events[..|events| - 1]);
      if MayHappen(before, last) {
        StepKeepsInvariant(before, last);
      }
    }
  }

  // ----- the history of a run

  /** The events that happened to run `i`. */
  function Happened(events: seq<WorldEvent>, i: nat): seq<Event> {
    if events == [] then []
    else
      var before, last := events[..|events| - 1], events[|events| - 1];
      if last.At? && last.run == i && MayHappen(Execute(before), last) then Happened(before, i) + [last.event]
      else Happened(before, i)
  }

  function StdoutText(e: Event): seq<string> {
    if e.Stdout? then [e.chunk] else []
  }

  /** What the child printed on stderr, and the notes of failed deliveries. */
  function StderrText(e: Event, hasPid: bool): seq<string> {
    match e
    case Stderr(chunk) => [chunk]
    case Timeout(Some(note)) => if hasPid then [note] else []
    case KillTimer(Some(note)) => if hasPid then [note] else []
    case ParentSignal(_, Some(note), _) => if hasPid then [note] else []
    case _ => []
  }

  function Sends(e: Event): seq<Signal> {
    match e
    case Timeout(_) => [SIGTERM]
    case KillTimer(_) => [SIGKILL]
    case ParentSignal(signal, _, _) => [signal]
    case _ => []
  }

  /** The group does not answer, or there is none. */
  predicate ShowsDead(e: Event, hasPid: bool) {
    match e
    case Close(_, alive) => !(hasPid && alive)
    case ParentSignal(_, _, alive) => !(hasPid && alive)
    case _ => false
  }

  function StdoutTexts(h: seq<Event>): seq<string> {
    if h == [] then [] else StdoutTexts(h[..|h| - 1]) + StdoutText(h[|h| - 1])
  }

  function StderrTexts(h: seq<Event>, hasPid: bool): seq<string> {
    if h == [] then [] else StderrTexts(h[..|h| - 1], hasPid) + StderrText(h[|h| - 1], hasPid)
  }

  function Sent(h: seq<Event>): seq<Signal> {
    if h == [] then [] else Sent(h[..|h| - 1]) + Sends(h[|h| - 1])
  }

  /** How the child exited, once it has closed. */
  function ExitIn(h: seq<Event>): Option<Exit> {
    if h == [] then None
    else if h[|h| - 1].Close? then Some(h[|h| - 1].exit)
    else ExitIn(h[..|h| - 1])
  }

  predicate HasTimeout(h: seq<Event>) {
    exists e <- h :: e.Timeout?
  }

  predicate HasParentSignal(h: seq<Event>) {
    exists e <- h :: e.ParentSignal?
  }

  /** A state and the events that led to it. */
  predicate IsHistory(s: RunState, h: seq<Event>) {
    && s.past.stdoutChunks == StdoutTexts(h) && s.past.stderrTexts == StderrTexts(h, s.config.hasPid)
    && s.past.sent == Sent(h) && s.past.exit == ExitIn(h)
    && (s.timedOut <==> HasTimeout(h))
    && (s.parent.signal.Some? <==> HasParentSignal(h))
    && (s.listeners.error <==> ChildError !in h)
    && (s.past.seenDead ==> exists e <- h :: ShowsDead(e, s.config.hasPid))
  }

  lemma HandleIsHistory(s: RunState, h: seq<Event>, e: Event)
    requires Wired(s) && IsHistory(s, h)
    ensures IsHistory(Handle(s, e), h + [e])
  {
    HandleRecords(s, e);
    RecordedIsHistory(s, h, e, Handle(s, e));
  }

  lemma RecordedIsHistory(s: RunState, h: seq<Event>, e: Event, t: RunState)
    requires IsHistory(s, h) && Records(s, e, t)
    ensures IsHistory(t, h + [e])
  {
    var after := h + [e];
    assert after[..|h|] == h && after[|h|] == e;
    assert forall x :: x in after <==> x in h || x == e;
  }

  /** What a callback adds to the record. */
  predicate Records(s: RunState, e: Event, t: RunState) {
    && t.config == s.config
    && t.past.stdoutChunks == s.past.stdoutChunks + StdoutText(e)
    && t.past.stderrTexts == s.past.stderrTexts + StderrText(e, s.config.hasPid)
    && t.past.sent == s.past.sent + Sends(e)
    && t.past.exit == (if e.Close? then Some(e.exit) else s.past.exit)
    && (t.timedOut <==> s.timedOut || e.Timeout?)
    && (t.parent.signal.Some? <==> s.parent.signal.Some? || e.ParentSignal?)
    && (t.listeners.error <==> s.listeners.error && e != ChildError)
    && (t.past.seenDead ==> s.past.seenDead || ShowsDead(e, s.config.hasPid))
  }

  lemma SettleRecordsNothing(s: RunState, e: Event, t: RunState, o: Settlement)
    requires Records(s, e, t)
    ensures Records(s, e, Settle(t, o))
  {
  }

  lemma CloseRecords(s: RunState, exit: Exit, alive: bool)
    ensures Records(s, Close(exit, alive), HandleClose(s, exit, alive))
  {
    var e, heard := Close(exit, alive), Heard(s, exit);
    assert Records(s, e, heard);
    if s.parentSignalPending.None? {
      SettleRecordsNothing(s, e, heard, CloseSettlement(heard, exit));
      if !GroupIsAlive(s, alive) {
        SettleRecordsNothing(s, e, SeenDead(heard), CloseSettlement(SeenDead(heard), exit));
      }
    }
  }

  lemma KillTimerRecords(s: RunState, failure: Option<string>)
    requires Wired(s)
    ensures Records(s, KillTimer(failure), HandleKillTimer(s, failure))
  {
    var killed := Killed(s, failure);
    assert Records(s, KillTimer(failure), killed);
    if s.childClosedResult.Some? {
      SettleRecordsNothing(s, KillTimer(failure), killed, CloseSettlement(killed, s.childClosedResult.value));
    }
  }

  lemma TimeoutRecords(s: RunState, failure: Option<string>)
    requires Wired(s)
    ensures Records(s, Timeout(failure), HandleTimeout(s, failure))
  {
  }

  lemma ParentSignalRecords(s: RunState, signal: Signal, failure: Option<string>, alive: bool)
    requires Wired(s)
    ensures Records(s, ParentSignal(signal, failure, alive), HandleParentSignal(s, signal, failure, alive))
  {
  }

  lemma HandleRecords(s: RunState, e: Event)
    requires Wired(s)
    ensures Records(s, e, Handle(s, e))
  {
    match e
    case Stdout(chunk) =>
    case Stderr(chunk) =>
    case ChildError =>
    case Close(exit, alive) => CloseRecords(s, exit, alive);
    case Timeout(failure) => TimeoutRecords(s, failure);
    case KillTimer(failure) => KillTimerRecords(s, failure);
    case ParentSignal(signal, failure, alive) => ParentSignalRecords(s, signal, failure, alive);
  }

  /** The state of run `i` and its history; nothing before it starts. */
  predicate HasHistory(runs: seq<RunState>, i: nat, h: seq<Event>) {
    if i < |runs| then IsHistory(runs[i], h) else h == []
  }

  lemma StepHasHistory(w: World, e: WorldEvent, i: nat, h: seq<Event>)
    requires MayHappen(w, e) && HasHistory(w.runs, i, h)
    ensures HasHistory(Step(w, e).runs, i, if e.At? && e.run == i then h + [e.event] else h)
  {
    if e.At? && e.run == i {
      HandleIsHistory(w.runs[i], h, e.event);
    } else if e.Spawn? && i == |w.runs| {
      SpawnedHasNoHistory(e.hasPid, e.limit, e.rejectOnFailure);
    } else {
      OthersStay(w, e, i);
    }
  }

  lemma {:induction false} PastIsHistory(events: seq<WorldEvent>, i: nat)
    ensures HasHistory(Execute(events).runs, i, Happened(events, i))
  {
    if events != [] {
      var before, last := events[..|events| - 1], events[|events| - 1];
      PastIsHistory(before, i);
      if MayHappen(Execute(before), last) {
        StepHasHistory(Execute(before), last, i, Happened(before, i));
      }
    }
  }

  lemma SpawnedHasNoHistory(hasPid: bool, limit: Limit, rejectOnFailure: bool)
    ensures IsHistory(Spawned(hasPid, limit, rejectOnFailure), [])
  {
  }

  lemma OthersStay(w: World, e: WorldEvent, i: nat)
    requires MayHappen(w, e) && !(e.At? && e.run == i) && !(e.Spawn? && i == |w.runs|)
    ensures i < |Step(w, e).runs| <==> i < |w.runs|
    ensures i < |w.runs| ==> Step(w, e).runs[i] == w.runs[i]
  {
  }

  // ----- what a run answers

  /** How a run with a history may settle. */
  predicate IsJustified(config: Config, h: seq<Event>, o: Settlement) {
    var out, exit := Concat(StdoutTexts(h)), ExitIn(h);
    match o
    case Resolved(code, stderr, stdout) =>
      && exit.Some? && !HasTimeout(h) && code == CodeOf(exit.value) && (code != 0 ==> !config.rejectOnFailure)
      && KeepsTail(stderr, Concat(StderrTexts(h, config.hasPid)), config.maxOutputChars)
      && |stdout| <= |out| && stdout == out[|out| - |stdout|..]
      && |stdout| == (if |out| < config.maxOutputChars then |out| else config.maxOutputChars)
      && (code == 0 ==> stdout == out)
    case RejectedTimedOut => exit.Some? && HasTimeout(h)
    case RejectedFailed => exit.Some? && !HasTimeout(h) && CodeOf(exit.value) != 0 && config.rejectOnFailure
    case RejectedTruncated => exit.Some? && !HasTimeout(h) && CodeOf(exit.value) == 0 && |out| > config.maxOutputChars
    case RejectedError => ChildError in h
  }

  lemma CausesAreJustified(s: RunState, h: seq<Event>, o: Settlement)
    requires RunInvariant(s) && IsHistory(s, h) && HasCause(s, o)
    ensures IsJustified(s.config, h, o)
  {
  }

  /** A history in time admits one kind of settlement. */
  lemma OneIsJustified(config: Config, h: seq<Event>, o: Settlement)
    requires config.maxOutputChars >= 1 && IsJustified(config, h, o)
    requires ExitIn(h).Some? && !HasTimeout(h) && ChildError !in h
    ensures
      var out, code := Concat(StdoutTexts(h)), CodeOf(ExitIn(h).value);
      o.Resolved? <==> if code == 0 then |out| <= config.maxOutputChars else !config.rejectOnFailure
  {
  }

  /** A child that has closed in time has settled its run. */
  lemma ClosedIsSettled(s: RunState)
    requires Controlled(s) && s.parent.signal.None? && s.past.exit.Some? && !s.timedOut
    ensures |s.past.settlements| == 1
  {
  }

  /** Run by run, whatever the other runs do: what happened to the run says how it settles. */
  lemma RunsAreSupervised(events: seq<WorldEvent>, i: nat)
    requires i < |Execute(events).runs|
    ensures
      var s, h := Execute(events).runs[i], Happened(events, i);
      var out, exit := Concat(StdoutTexts(h)), ExitIn(h);
      // It settles at most once, as its history calls for.
      && |s.past.settlements| <= 1
      && (forall o <- s.past.settlements :: IsJustified(s.config, h, o))
      // A child error settles it at once.
      && (ChildError in h ==> |s.past.settlements| == 1)
      // A child that closes in time settles it, and a good exit with its output kept resolves it.
      && (exit.Some? && !HasTimeout(h) && !HasParentSignal(h) && ChildError !in h ==>
            && |s.past.settlements| == 1
            && (s.past.settlements[0].Resolved? <==>
                  if CodeOf(exit.value) == 0 then |out| <= s.config.maxOutputChars else !s.config.rejectOnFailure))
      // Without a parent signal: a timeout is reported only once the group has ended, and an open wait ends.
      && (!HasParentSignal(h) && RejectedTimedOut in s.past.settlements ==> GroupEnded(s))
      && (!HasParentSignal(h) && !s.settled && exit.Some? ==> s.childClosedResult == exit && s.timers.kill.AfterTimeout?)
      && (!HasParentSignal(h) && !s.settled ==>
            s.timers.timeout || s.timers.kill.AfterTimeout? || (SIGKILL in s.past.sent && s.listeners.close))
      // Until then it relays the three signals.
      && (!HasParentSignal(h) && !s.settled ==> s.listeners.signals == {SIGINT, SIGTERM, SIGHUP})
  {
    var s, h := Execute(events).runs[i], Happened(events, i);
    ExecuteKeepsInvariant(events);
    assert RunInvariant(s);
    PastIsHistory(events, i);
    forall o <- s.past.settlements
      ensures IsJustified(s.config, h, o)
    {
      CausesAreJustified(s, h, o);
    }
    if ExitIn(h).Some? && !HasTimeout(h) && !HasParentSignal(h) && ChildError !in h {
      ClosedIsSettled(s);
      OneIsJustified(s.config, h, s.past.settlements[0]);
    }
  }

  /** Whichever of the two last callbacks is still to come settles the run. */
  lemma LastCallbackSettles(events: seq<WorldEvent>, i: nat, failure: Option<string>, exit: Exit, alive: bool)
    requires i < |Execute(events).runs|
    requires Execute(events).runs[i].parent.signal.None? && Execute(events).runs[i].timedOut
    ensures
      var s := Execute(events).runs[i];
      && Wired(s)
      && (!s.listeners.close && Enabled(s, KillTimer(failure)) ==> HandleKillTimer(s, failure).settled)
      && (s.listeners.close && s.timers.kill.Disarmed? ==> HandleClose(s, exit, alive).settled)
      && (!s.listeners.close && s.timers.kill.Disarmed? ==> s.settled)
  {
    ExecuteKeepsInvariant(events);
  }

  /** A group that is gone ends every wait for it: the relay is done, or else the run settles. */
  lemma DeadGroupEndsWait(s: RunState, e: Event)
    requires RunInvariant(s) && Enabled(s, e) && ShowsDead(e, s.config.hasPid)
    ensures
      var t := Handle(s, e);
      if t.parent.signal.Some? then t.parent.done else t.settled
  {
    HandleKeepsControl(s, e);
  }

  // ----- the re-raised parent signal

  function RelayOf(e: Event): set<Signal> {
    if e.ParentSignal? then {e.signal} else {}
  }

  /** The relays of a run, read off the interleaving. */
  function RelaysTo(events: seq<WorldEvent>, i: nat): set<Signal> {
    if events == [] then {}
    else
      var last := events[|events| - 1];
      RelaysTo(events[..|events| - 1], i)
      + (if MayHappen(Execute(events[..|events| - 1]), last) && last.At? && last.run == i then RelayOf(last.event) else {})
  }

  function AsSet(signal: Option<Signal>): set<Signal> {
    if signal.Some? then {signal.value} else {}
  }

  /** What the shared set records of run `i`; nothing before the run starts. */
  function Recorded(runs: seq<RunState>, i: nat): set<Signal> {
    if i < |runs| then AsSet(runs[i].parent.signal) else {}
  }

  lemma HandleAddsRelay(s: RunState, e: Event)
    requires RunInvariant(s) && Enabled(s, e)
    ensures AsSet(Handle(s, e).parent.signal) == AsSet(s.parent.signal) + RelayOf(e)
  {
    HandleRecordsRelay(s, e);
    assert e.ParentSignal? ==> s.parent.signal.None?;
  }

  lemma RunRecordsRelay(runs: seq<RunState>, i: nat, s: RunState, relay: set<Signal>, j: nat)
    requires i < |runs| && AsSet(s.parent.signal) == AsSet(runs[i].parent.signal) + relay
    ensures Recorded(runs[i := s], j) == Recorded(runs, j) + if i == j then relay else {}
  {
  }

  lemma SpawnRecordsNothing(runs: seq<RunState>, s: RunState, j: nat)
    requires s.parent.signal.None?
    ensures Recorded(runs + [s], j) == Recorded(runs, j)
  {
  }

  lemma StepRecordsRelay(w: World, e: WorldEvent, i: nat)
    requires WorldInvariant(w) && MayHappen(w, e)
    ensures Recorded(Step(w, e).runs, i) == Recorded(w.runs, i) + if e.At? && e.run == i then RelayOf(e.event) else {}
  {
    if e.At? {
      HandleAddsRelay(w.runs[e.run], e.event);
      RunRecordsRelay(w.runs, e.run, Handle(w.runs[e.run], e.event), RelayOf(e.event), i);
    } else {
      SpawnRecordsNothing(w.runs, Spawned(e.hasPid, e.limit, e.rejectOnFailure), i);
    }
  }

  /** A run is relayed at most one signal, the one its entry in the shared set records. */
  lemma {:induction false} EntryRecordsRelay(events: seq<WorldEvent>, i: nat)
    ensures RelaysTo(events, i) == Recorded(Execute(events).runs, i)
  {
    if events != [] {
      var before, last := Execute(events[..|events| - 1]), events[|events| - 1];
      EntryRecordsRelay(events[..|events| - 1], i);
      ExecuteKeepsInvariant(events[..|events| - 1]);
      if MayHappen(before, last) {
        StepRecordsRelay(before, last, i);
      }
    }
  }

  /** Some parent signal was passed on to the group of the run, and the group has ended. */
  predicate RelayedAndEnded(events: seq<WorldEvent>, i: nat)
    requires i < |Execute(events).runs|
  {
    var s := Execute(events).runs[i];
    RelaysTo(events, i) != {} && (forall r <- RelaysTo(events, i) :: r in s.past.sent) && GroupEnded(s)
  }

  predicate Reraises(events: seq<WorldEvent>, signal: Signal) {
    && events != []
    && Execute(events).raised == Execute(events[..|events| - 1]).raised + [signal]
  }

  /** Only a callback that asks for it makes the parent signal itself, and only when all entries are done. */
  lemma StepReraises(w: World, e: WorldEvent, signal: Signal)
    requires MayHappen(w, e) && Step(w, e).raised == w.raised + [signal]
    ensures e.At? && Asks(w.runs[e.run], e.event) == Some(signal)
    ensures ReadyToReraise(Step(w, e).runs, Step(w, e).active)
  {
    assert Step(w, e).raised[|w.raised|] == signal;
  }

  /** The callback that re-raises belongs to a run that was relayed this very signal. */
  lemma ReraiseIsAsked(events: seq<WorldEvent>, signal: Signal)
    requires Reraises(events, signal)
    ensures ReadyToReraise(Execute(events).runs, Execute(events).active)
    ensures exists i <- Execute(events).active :: RelaysTo(events, i) == {signal}
  {
    var w, before, last := Execute(events), Execute(events[..|events| - 1]), events[|events| - 1];
    ExecuteKeepsInvariant(events[..|events| - 1]);
    assert |w.raised| == |before.raised| + 1;
    StepReraises(before, last, signal);
    AskerIsRelayed(before, last, signal);
    ExecuteKeepsInvariant(events);
    EntryRecordsRelay(events, last.run);
    assert last.run in w.active;
  }

  lemma AskerIsRelayed(w: World, e: WorldEvent, signal: Signal)
    requires WorldInvariant(w) && MayHappen(w, e) && e.At? && Asks(w.runs[e.run], e.event) == Some(signal)
    ensures |Step(w, e).runs| == |w.runs| && Step(w, e).runs[e.run].parent.signal == Some(signal)
  {
    assert RunInvariant(w.runs[e.run]);
    HandleRecordsRelay(w.runs[e.run], e.event);
  }

  /** Every run in the set was relayed a signal and is through with it. */
  predicate AllThrough(w: World) {
    forall i <- w.active :: i < |w.runs| && w.runs[i].parent.signal.Some? && w.runs[i].parent.done
  }

  /** The callback that makes the last open entry of the shared set done makes the parent signal itself. */
  lemma LastDoneReraises(w: World, i: nat, e: Event, after: World)
    requires WorldInvariant(w) && MayHappen(w, At(i, e)) && after == Step(w, At(i, e)) && AllThrough(after)
    requires !w.runs[i].parent.done && Handle(w.runs[i], e).parent.done
    ensures Handle(w.runs[i], e).parent.signal.Some?
    ensures after.raised == w.raised + [Handle(w.runs[i], e).parent.signal.value]
  {
    assert RunInvariant(w.runs[i]);
    DoneAsks(w.runs[i], e);
    assert ReadyToReraise(after.runs, after.active);
  }

  lemma DoneAsks(s: RunState, e: Event)
    requires RunInvariant(s) && Enabled(s, e) && !s.parent.done && Handle(s, e).parent.done
    ensures Handle(s, e).parent.signal.Some? && Asks(s, e) == Handle(s, e).parent.signal
  {
    HandleRecordsRelay(s, e);
  }

  /**
   When the parent signals itself, every run ever started has either settled before any parent signal
   reached it, or has been relayed one and its process group has ended.
   */
  lemma ReraiseIsSafe(events: seq<WorldEvent>, signal: Signal, i: nat)
    requires Reraises(events, signal) && i < |Execute(events).runs|
    ensures
      var w := Execute(events);
      if i in w.active then RelayedAndEnded(events, i)
      else w.runs[i].settled && RelaysTo(events, i) == {}
  {
    ExecuteKeepsInvariant(events);
    ReraiseIsAsked(events, signal);
    EntryRecordsRelay(events, i);
  }

  /** Event `k` happens, and passes a parent signal on to run `i`. */
  predicate Delivers(events: seq<WorldEvent>, k: nat, i: nat, signal: Signal)
    requires k < |events|
  {
    events[k].At? && events[k].run == i && signal in RelayOf(events[k].event) && MayHappen(Execute(events[..k]), events[k])
  }

  lemma DeliveredBefore(events: seq<WorldEvent>, n: nat, k: nat, i: nat, signal: Signal)
    requires k < n <= |events|
    ensures Delivers(events[..n], k, i, signal) <==> Delivers(events, k, i, signal)
  {
    assert events[..n][..k] == events[..k];
  }

  lemma {:induction false} RelaysAreDelivered(events: seq<WorldEvent>, i: nat, signal: Signal)
    ensures signal in RelaysTo(events, i) <==> exists k :: 0 <= k < |events| && Delivers(events, k, i, signal)
  {
    if events != [] {
      var n := |events| - 1;
      var before := events[..n];
      RelaysAreDelivered(before, i, signal);
      assert signal in RelaysTo(events, i) <==> signal in RelaysTo(before, i) || Delivers(events, n, i, signal);
      if signal in RelaysTo(before, i) {
        var k :| 0 <= k < n && Delivers(before, k, i, signal);
        DeliveredBefore(events, n, k, i, signal);
      }
      if k :| 0 <= k < n && Delivers(events, k, i, signal) {
        DeliveredBefore(events, n, k, i, signal);
        assert Delivers(before, k, i, signal);
      }
    }
  }

  /** The runs in the shared set are those that a re-raise concerns: no other run was relayed anything. */
  lemma RelaysAreInTheSet(events: seq<WorldEvent>, signal: Signal, i: nat)
    requires Reraises(events, signal)
    ensures i in Execute(events).active <==> RelaysTo(events, i) != {}
    ensures |RelaysTo(events, i)| <= 1
  {
    ExecuteKeepsInvariant(events);
    ReraiseIsAsked(events, signal);
    EntryRecordsRelay(events, i);
  }

  /**
   The re-raised signal was relayed to every run in the shared set exactly when no other parent signal was
   delivered to any run, from the first event on.
   */
  lemma ReraisedSignalReachedAll(events: seq<WorldEvent>, signal: Signal)
    requires Reraises(events, signal)
    ensures
      (forall i <- Execute(events).active :: signal in RelaysTo(events, i))
      <==> (forall k, i, other :: 0 <= k < |events| && Delivers(events, k, i, other) ==> other == signal)
  {
    if forall i <- Execute(events).active :: signal in RelaysTo(events, i) {
      forall k, i, other | 0 <= k < |events| && Delivers(events, k, i, other)
        ensures other == signal
      {
        RelaysAreDelivered(events, i, other);
        RelaysAreInTheSet(events, signal, i);
        EntryRecordsRelay(events, i);
      }
    }
    if forall k, i, other :: 0 <= k < |events| && Delivers(events, k, i, other) ==> other == signal {
      forall i <- Execute(events).active
        ensures signal in RelaysTo(events, i)
      {
        RelaysAreInTheSet(events, signal, i);
        var other :| other in RelaysTo(events, i);
        RelaysAreDelivered(events, i, other);
      }
    }
  }

  const SPAWN: WorldEvent := Spawn(true, Absent, false)

  /** Run 0 is relayed SIGINT and lives on; then run 1 starts, is relayed SIGTERM and is gone. */
  const TWO_SIGNALS: seq<WorldEvent> :=
    [SPAWN, At(0, ParentSignal(SIGINT, None, true)), SPAWN, At(1, ParentSignal(SIGTERM, None, false))]

  lemma TwoSignals()
    ensures
      var s := Spawned(true, Absent, false);
      Execute(TWO_SIGNALS)
      == World([HandleParentSignal(s, SIGINT, None, true), HandleParentSignal(s, SIGTERM, None, false)], {0, 1}, [])
  {
    var s := Spawned(true, Absent, false);
    ExecuteOneMore([], TWO_SIGNALS[0]);
    assert Execute(TWO_SIGNALS[..1]) == World([s], {0}, []) by {
      assert TWO_SIGNALS[..1] == [] + [TWO_SIGNALS[0]];
    }
    ExecuteOneMore(TWO_SIGNALS[..1], TWO_SIGNALS[1]);
    var s1 := HandleParentSignal(s, SIGINT, None, true);
    assert Execute(TWO_SIGNALS[..2]) == World([s1], {0}, []) by {
      assert TWO_SIGNALS[..2] == TWO_SIGNALS[..1] + [TWO_SIGNALS[1]];
    }
    ExecuteOneMore(TWO_SIGNALS[..2], TWO_SIGNALS[2]);
    assert Execute(TWO_SIGNALS[..3]) == World([s1, s], {0, 1}, []) by {
      assert TWO_SIGNALS[..3] == TWO_SIGNALS[..2] + [TWO_SIGNALS[2]];
    }
    ExecuteOneMore(TWO_SIGNALS[..3], TWO_SIGNALS[3]);
    assert TWO_SIGNALS == TWO_SIGNALS[..3] + [TWO_SIGNALS[3]];
  }

  /**
   Two different signals defeat the guard: the second run only ever received SIGTERM, yet the parent
   ends by SIGINT, because the loop over the set does not compare the signals.
   */
  lemma ReraisedSignalMayBypassRun()
    ensures exists events, i ::
      && Reraises(events, SIGINT)
      && i in Execute(events).active && RelaysTo(events, i) == {SIGTERM}
  {
    var last := At(0, KillTimer(None));
    var events := TWO_SIGNALS + [last];
    TwoSignals();
    ExecuteOneMore(TWO_SIGNALS, last);
    assert events[..4] == TWO_SIGNALS;
    EntryRecordsRelay(events, 1);
    assert Reraises(events, SIGINT) && 1 in Execute(events).active && RelaysTo(events, 1) == {SIGTERM};
  }

  lemma ExecuteOneMore(events: seq<WorldEvent>, e: WorldEvent)
    requires MayHappen(Execute(events), e)
    ensures Execute(events + [e]) == Step(Execute(events), e)
  {
    assert (events + [e])[..|events|] == events;
  }
}
