/** Watching a gateway restart: a polling loop over whatever the probe observes. */
module RestartProbe {
  import opened Wrappers
  import opened Text

  /** The server answered with a status, or there was no answer and the error has a kind. */
  datatype Attempt = Answered(code: nat) | NoAnswer(kind: string)

  function Status(a: Attempt): Option<nat> {
    if a.Answered? then Some(a.code) else None
  }

  function ErrorKind(a: Attempt): Option<string> {
    match a
    case Answered(code) => if code == 200 then None else Some("http-" + Decimal(code))
    case NoAnswer(kind) => Some(kind)
  }

  /** An empty kind counts as none. */
  function ReportedKind(a: Attempt): Option<string> {
    if ErrorKind(a) == Some("") then None else ErrorKind(a)
  }

  /** One turn of the loop before the deadline: the two callbacks, the probe, and the clock after it. */
  datatype Poll = Poll(processDone: bool, done: bool, attempt: Attempt, now: real)

  datatype Transition = Transition(ms: real, status: Option<nat>, errorKind: Option<string>)

  datatype ProbeResult = ProbeResult(
    downtimeMs: Option<real>, firstErrorKind: Option<string>, firstRecoveryMs: Option<real>, ms: Option<real>,
    status: Option<nat>, transitions: seq<Transition>, unavailableMs: Option<real>)

  // ----- the state key

  function StateKey(a: Attempt): string {
    (match Status(a) case Some(code) => Decimal(code) case None => "none") + ":"
    + (match ErrorKind(a) case Some(kind) => kind case None => "ok")
  }

  function UpToColon(s: string): string {
    if s == "" || s[0] == ':' then "" else [s[0]] + UpToColon(s[1..])
  }

  lemma {:induction false} UpToColonOf(head: string, tail: string)
    requires forall i :: 0 <= i < |head| ==> head[i] != ':'
    ensures UpToColon(head + ":" + tail) == head
  {
    if head == "" {
      assert (head + ":" + tail)[0] == ':';
    } else {
      UpToColonOf(head[1..], tail);
      assert (head + ":" + tail)[1..] == head[1..] + ":" + tail;
    }
  }

  lemma KeyParts(a: Attempt)
    ensures
      var head := match Status(a) case Some(code) => Decimal(code) case None => "none";
      && UpToColon(StateKey(a)) == head
      && StateKey(a)[|head| + 1..] == match ErrorKind(a) case Some(kind) => kind case None => "ok"
  {
    var head := match Status(a) case Some(code) => Decimal(code) case None => "none";
    var tail := match ErrorKind(a) case Some(kind) => kind case None => "ok";
    assert a.Answered? ==> forall i :: 0 <= i < |head| ==> IsDigit(head[i]);
    UpToColonOf(head, tail);
    assert StateKey(a) == head + ":" + tail;
  }

  /** The key tells any two observations apart. */
  lemma StateKeyIsInjective(a: Attempt, b: Attempt)
    ensures StateKey(a) == StateKey(b) <==> a == b
  {
    KeyParts(a);
    KeyParts(b);
    if a.Answered? {
      DecimalRoundTrip(a.code);
      assert IsDigit(Decimal(a.code)[0]);
    }
    if b.Answered? {
      DecimalRoundTrip(b.code);
      assert IsDigit(Decimal(b.code)[0]);
    }
  }

  // ----- what the trace says

  predicate IsUp(p: Poll) {
    p.attempt == Answered(200)
  }

  predicate AllUp(polls: seq<Poll>, n: nat)
    requires n <= |polls|
  {
    forall j :: 0 <= j < n ==> IsUp(polls[j])
  }

  /** Before attempt `i`: the process is gone, or the caller is content and nothing went down. */
  predicate StopsBefore(polls: seq<Poll>, i: nat)
    requires i < |polls|
  {
    polls[i].processDone || (polls[i].done && i > 0 && AllUp(polls, i))
  }

  predicate Recovers(polls: seq<Poll>, i: nat)
    requires i < |polls|
  {
    IsUp(polls[i]) && !AllUp(polls, i)
  }

  /** The number of attempts made. */
  function Made(polls: seq<Poll>, i: nat): (n: nat)
    requires i <= |polls|
    ensures i <= n <= |polls|
    ensures forall j :: i <= j < n - 1 ==> !Recovers(polls, j)
    ensures forall j :: i <= j < n ==> !StopsBefore(polls, j)
    ensures n < |polls| ==> StopsBefore(polls, n) || (n > i && Recovers(polls, n - 1))
    decreases |polls| - i
  {
    if i == |polls| || StopsBefore(polls, i) then i
    else if Recovers(polls, i) then i + 1
    else Made(polls, i + 1)
  }

  function FirstDown(polls: seq<Poll>, n: nat): (j: nat)
    requires n <= |polls|
    ensures j <= n && AllUp(polls, j) && (j < n ==> !IsUp(polls[j]))
  {
    if n == 0 then 0
    else
      var j := FirstDown(polls, n - 1);
      if j < n - 1 || !IsUp(polls[n - 1]) then j else n
  }

  predicate Changes(polls: seq<Poll>, i: nat)
    requires i < |polls|
  {
    i == 0 || polls[i].attempt != polls[i - 1].attempt
  }

  function TransitionAt(p: Poll, origin: real): Transition {
    Transition(p.now - origin, Status(p.attempt), ReportedKind(p.attempt))
  }

  /** One transition for every run of equal observations, at its first one. */
  function Compressed(polls: seq<Poll>, n: nat, origin: real): seq<Transition>
    requires n <= |polls|
  {
    if n == 0 then []
    else Compressed(polls, n - 1, origin) + if Changes(polls, n - 1) then [TransitionAt(polls[n - 1], origin)] else []
  }

  function FirstKind(polls: seq<Poll>, n: nat): Option<string>
    requires n <= |polls|
  {
    if n == 0 then None
    else if FirstKind(polls, n - 1).Some? then FirstKind(polls, n - 1)
    else ReportedKind(polls[n - 1].attempt)
  }

  predicate HasRecovered(polls: seq<Poll>, n: nat)
    requires n <= |polls|
  {
    n > 0 && Recovers(polls, n - 1)
  }

  /** The report on the first `n` attempts. */
  function Report(polls: seq<Poll>, n: nat, sentAt: real): ProbeResult
    requires n <= |polls|
  {
    var down := FirstDown(polls, n);
    var last := if n > 0 then Some(polls[n - 1].now - sentAt) else None;
    var recovery := if HasRecovered(polls, n) then last else None;
    ProbeResult(
      if recovery.Some? && down < n then Some(recovery.value - (polls[down].now - sentAt)) else None,
      FirstKind(polls, n),
      recovery,
      if down == n then last else recovery,
      if n > 0 then Status(polls[n - 1].attempt) else None,
      Compressed(polls, n, sentAt),
      if down < n then Some(polls[down].now - sentAt) else None)
  }

  // ----- the loop

  function KeyBefore(polls: seq<Poll>, i: nat): Option<string>
    requires i <= |polls|
  {
    if i == 0 then None else Some(StateKey(polls[i - 1].attempt))
  }

  function TimeOf(polls: seq<Poll>, i: nat, origin: real): Option<real>
    requires i <= |polls|
  {
    if i == 0 then None else Some(polls[i - 1].now - origin)
  }

  function DownSince(polls: seq<Poll>, i: nat, origin: real): Option<real>
    requires i <= |polls|
  {
    if FirstDown(polls, i) < i then Some(polls[FirstDown(polls, i)].now - origin) else None
  }

  /** What is logged on top of `base` after `i` attempts. */
  function Logged(base: seq<Transition>, polls: seq<Poll>, i: nat, origin: real): seq<Transition>
    requires i <= |polls|
  {
    base + Compressed(polls, i, origin)
  }

  lemma LoggedNext(base: seq<Transition>, polls: seq<Poll>, i: nat, origin: real)
    requires i < |polls|
    ensures Logged(base, polls, i + 1, origin)
         == Logged(base, polls, i, origin) + if Changes(polls, i) then [TransitionAt(polls[i], origin)] else []
  {
  }

  /** The transition part of one turn. */
  method NoteTransition(polls: seq<Poll>, i: nat, sampleStartAt: real, signalSentAt: real,
                        lastStateKey: Option<string>, transitions: seq<Transition>, events: seq<Transition>,
                        ghost base: seq<Transition>)
    returns (stateKey: string, transitionsAfter: seq<Transition>, eventsAfter: seq<Transition>)
    requires i < |polls| && lastStateKey == KeyBefore(polls, i)
    requires transitions == Compressed(polls, i, signalSentAt) && events == Logged(base, polls, i, sampleStartAt)
    ensures Some(stateKey) == KeyBefore(polls, i + 1)
    ensures transitionsAfter == Compressed(polls, i + 1, signalSentAt)
    ensures eventsAfter == Logged(base, polls, i + 1, sampleStartAt)
  {
    LoggedNext(base, polls, i, sampleStartAt);
    var attempt, now := polls[i].attempt, polls[i].now;
    stateKey, transitionsAfter, eventsAfter := StateKey(attempt), transitions, events;
    if i > 0 {
      StateKeyIsInjective(attempt, polls[i - 1].attempt);
    }
    if Some(stateKey) != lastStateKey {
      transitionsAfter := transitions + [Transition(now - signalSentAt, Status(attempt), ReportedKind(attempt))];
      eventsAfter := events + [Transition(now - sampleStartAt, Status(attempt), ReportedKind(attempt))];
    }
  }

  lemma UpMeansNoneDown(polls: seq<Poll>, n: nat)
    requires n <= |polls|
    ensures AllUp(polls, n) <==> FirstDown(polls, n) == n
  {
  }

  /** What the loop holds after `i` attempts. */
  datatype Watch = Watch(
    firstErrorKind: Option<string>, lastStatus: Option<nat>, lastSuccessMs: Option<real>, unavailableMs: Option<real>)

  predicate Watches(w: Watch, polls: seq<Poll>, i: nat, sentAt: real)
    requires i <= |polls|
  {
    && w.firstErrorKind == FirstKind(polls, i)
    && w.lastStatus == (if i == 0 then None else Status(polls[i - 1].attempt))
    && w.unavailableMs == DownSince(polls, i, sentAt)
    && (w.unavailableMs.None? ==> AllUp(polls, i) && w.lastSuccessMs == TimeOf(polls, i, sentAt))
    && (w.unavailableMs.Some? ==> !AllUp(polls, i))
    && (i > 0 && IsUp(polls[i - 1]) ==> w.lastSuccessMs == TimeOf(polls, i, sentAt))
  }

  /** The rest of one turn. */
  method NoteAttempt(polls: seq<Poll>, i: nat, signalSentAt: real, before: Watch) returns (w: Watch)
    requires i < |polls| && Watches(before, polls, i, signalSentAt)
    ensures Watches(w, polls, i + 1, signalSentAt)
    ensures before.unavailableMs.Some? ==> w.unavailableMs == before.unavailableMs
    ensures IsUp(polls[i]) && w.unavailableMs.Some? <==> Recovers(polls, i)
  {
    var attempt, elapsedMs := polls[i].attempt, polls[i].now - signalSentAt;
    w := before.(lastStatus := Status(attempt));
    if ReportedKind(attempt).Some? && w.firstErrorKind.None? {
      w := w.(firstErrorKind := ReportedKind(attempt));
    }
    if Status(attempt) != Some(200) && w.unavailableMs.None? {
      w := w.(unavailableMs := Some(elapsedMs));
    }
    if Status(attempt) == Some(200) {
      w := w.(lastSuccessMs := Some(elapsedMs));
    }
  }

  lemma ReportOfWatch(w: Watch, polls: seq<Poll>, n: nat, sentAt: real)
    requires n <= |polls| && Watches(w, polls, n, sentAt)
    ensures HasRecovered(polls, n) ==> w.unavailableMs.Some?
    ensures Report(polls, n, sentAt) ==
            var elapsed := TimeOf(polls, n, sentAt);
            if HasRecovered(polls, n)
            then ProbeResult(Some(elapsed.value - w.unavailableMs.value), w.firstErrorKind, elapsed, elapsed,
                             w.lastStatus, Compressed(polls, n, sentAt), w.unavailableMs)
            else ProbeResult(None, w.firstErrorKind, None, if w.unavailableMs.None? then w.lastSuccessMs else None,
                             w.lastStatus, Compressed(polls, n, sentAt), w.unavailableMs)
  {
    UpMeansNoneDown(polls, n);
    if HasRecovered(polls, n) {
      UpMeansNoneDown(polls, n - 1);
    }
  }

  /** When the loop may end before attempt `i`, as it sees it. */
  lemma StopOfWatch(w: Watch, polls: seq<Poll>, i: nat, sentAt: real)
    requires i < |polls| && Watches(w, polls, i, sentAt)
    ensures StopsBefore(polls, i)
            <==> polls[i].processDone || (polls[i].done && w.unavailableMs.None? && w.lastSuccessMs.Some?)
    ensures w.unavailableMs.None? && w.lastSuccessMs.Some? ==> w.lastStatus == Some(200)
  {
  }

  lemma MadeNext(polls: seq<Poll>, i: nat)
    requires i < |polls|
    ensures Made(polls, i) == if StopsBefore(polls, i) then i
                              else if HasRecovered(polls, i + 1) then i + 1
                              else Made(polls, i + 1)
  {
  }

  // the three exits

  lemma ContentReport(w: Watch, polls: seq<Poll>, n: nat, sentAt: real, result: ProbeResult)
    requires n <= |polls| && Watches(w, polls, n, sentAt) && w.unavailableMs.None? && w.lastSuccessMs.Some?
    requires result ==
      ProbeResult(None, w.firstErrorKind, None, w.lastSuccessMs, Some(200), Compressed(polls, n, sentAt), None)
    ensures result == Report(polls, n, sentAt)
  {
    ReportOfWatch(w, polls, n, sentAt);
  }

  lemma RecoveryReport(w: Watch, polls: seq<Poll>, n: nat, sentAt: real)
    requires 0 < n <= |polls| && Watches(w, polls, n, sentAt) && HasRecovered(polls, n) && w.unavailableMs.Some?
    ensures w.lastSuccessMs == Some(polls[n - 1].now - sentAt) && w.lastStatus == Some(200)
    ensures
      var elapsed := polls[n - 1].now - sentAt;
      Report(polls, n, sentAt) ==
      ProbeResult(Some(elapsed - w.unavailableMs.value), w.firstErrorKind, Some(elapsed), Some(elapsed),
                  Some(200), Compressed(polls, n, sentAt), w.unavailableMs)
  {
    ReportOfWatch(w, polls, n, sentAt);
  }

  lemma LastReport(w: Watch, polls: seq<Poll>, n: nat, sentAt: real, result: ProbeResult)
    requires n <= |polls| && Watches(w, polls, n, sentAt) && !HasRecovered(polls, n)
    requires result ==
      ProbeResult(None, w.firstErrorKind, None, if w.unavailableMs.None? then w.lastSuccessMs else None,
                  w.lastStatus, Compressed(polls, n, sentAt), w.unavailableMs)
    ensures result == Report(polls, n, sentAt)
  {
    ReportOfWatch(w, polls, n, sentAt);
  }

  /** Where the loop is left: the caller is content, the server is back, or the process or the time is over. */
  datatype LoopExit = Content | Recovered | Over

  predicate LeavesBy(exit: LoopExit, w: Watch, polls: seq<Poll>, n: nat)
    requires n <= |polls|
  {
    match exit
    case Content => w.unavailableMs.None? && w.lastSuccessMs.Some?
    case Recovered => HasRecovered(polls, n) && w.unavailableMs.Some?
    case Over => !HasRecovered(polls, n)
  }

  /** The loop: the attempts it makes, what it holds after them, and where it is left. */
  method PollUntilExit(polls: seq<Poll>, sampleStartAt: real, signalSentAt: real, events: seq<Transition>)
    returns (w: Watch, exit: LoopExit, n: nat, transitions: seq<Transition>, eventsAfter: seq<Transition>)
    ensures n == Made(polls, 0) <= |polls| && Watches(w, polls, n, signalSentAt) && LeavesBy(exit, w, polls, n)
    ensures transitions == Compressed(polls, n, signalSentAt) && eventsAfter == Logged(events, polls, n, sampleStartAt)
  {
    var lastStateKey: Option<string> := None;
    w, exit, transitions, eventsAfter := Watch(None, None, None, None), Over, [], events;
    n := 0;
    while n < |polls|
      invariant n <= |polls| && Made(polls, 0) == Made(polls, n) && !HasRecovered(polls, n) && exit == Over
      invariant lastStateKey == KeyBefore(polls, n) && Watches(w, polls, n, signalSentAt)
      invariant transitions == Compressed(polls, n, signalSentAt)
      invariant eventsAfter == Logged(events, polls, n, sampleStartAt)
    {
      MadeNext(polls, n);
      StopOfWatch(w, polls, n, signalSentAt);
      if polls[n].processDone {
        return;
      }
      if polls[n].done && w.unavailableMs.None? && w.lastSuccessMs.Some? {
        exit := Content;
        return;
      }
      var stateKey;
      stateKey, transitions, eventsAfter :=
        NoteTransition(polls, n, sampleStartAt, signalSentAt, lastStateKey, transitions, eventsAfter, events);
      lastStateKey := Some(stateKey);
      w := NoteAttempt(polls, n, signalSentAt, w);
      var attempt := polls[n].attempt;
      n := n + 1;
      if Status(attempt) == Some(200) && w.unavailableMs.Some? {
        exit := Recovered;
        return;
      }
    }
  }

  method WaitForRestartProbe(polls: seq<Poll>, sampleStartAt: real, signalSentAt: real, events: seq<Transition>)
    returns (result: ProbeResult, eventsAfter: seq<Transition>)
    ensures result == Report(polls, Made(polls, 0), signalSentAt)
    ensures eventsAfter == Logged(events, polls, Made(polls, 0), sampleStartAt)
  {
    var w, exit, n, transitions;
    w, exit, n, transitions, eventsAfter := PollUntilExit(polls, sampleStartAt, signalSentAt, events);
    match exit {
      case Content =>
        result := ProbeResult(None, w.firstErrorKind, None, w.lastSuccessMs, Some(200), transitions, None);
        ContentReport(w, polls, n, signalSentAt, result);
      case Recovered =>
        RecoveryReport(w, polls, n, signalSentAt);
        var elapsedMs := w.lastSuccessMs.value;
        result := ProbeResult(Some(elapsedMs - w.unavailableMs.value), w.firstErrorKind, Some(elapsedMs), Some(elapsedMs),
                              w.lastStatus, transitions, w.unavailableMs);
      case Over =>
        result := ProbeResult(None, w.firstErrorKind, None, if w.unavailableMs.None? then w.lastSuccessMs else None,
                              w.lastStatus, transitions, w.unavailableMs);
        LastReport(w, polls, n, signalSentAt, result);
    }
  }

  // ----- what the report means

  predicate IsMonotone(polls: seq<Poll>) {
    forall i, j :: 0 <= i <= j < |polls| ==> polls[i].now <= polls[j].now
  }

  /** Down from `d` on, and up again for the first time at `r`. */
  predicate IsOutage(polls: seq<Poll>, d: nat, r: nat)
    requires d < r < |polls|
  {
    AllUp(polls, d) && (forall j :: d <= j < r ==> !IsUp(polls[j])) && IsUp(polls[r])
  }

  /** When `ms`, `downtimeMs` and `unavailableMs` are reported, and what they measure. */
  lemma ReportMeaning(polls: seq<Poll>, sentAt: real)
    requires IsMonotone(polls)
    ensures
      var n := Made(polls, 0);
      var report, down := Report(polls, n, sentAt), FirstDown(polls, n);
      var recovered := report.downtimeMs.Some?;
      && (report.ms.Some? <==> n > 0 && (recovered || AllUp(polls, n)))
      && (report.unavailableMs.Some? <==> !AllUp(polls, n))
      && (report.unavailableMs.Some? ==>
            && down < n && AllUp(polls, down) && !IsUp(polls[down])
            && report.unavailableMs.value == polls[down].now - sentAt)
      && (recovered <==> exists d, r :: 0 <= d < r < n && IsOutage(polls, d, r))
      && (recovered ==>
            && down < n - 1 && IsOutage(polls, down, n - 1)
            && report.downtimeMs.value == polls[n - 1].now - polls[down].now >= 0.0
            && report.ms == report.firstRecoveryMs == Some(polls[n - 1].now - sentAt))
  {
    var n := Made(polls, 0);
    var down := FirstDown(polls, n);
    UpMeansNoneDown(polls, n);
    if HasRecovered(polls, n) {
      assert down < n - 1;
      forall j | down <= j < n - 1
        ensures !IsUp(polls[j])
      {
        assert !Recovers(polls, j);
        assert j > down ==> !AllUp(polls, j);
      }
      assert IsOutage(polls, down, n - 1);
    }
    if d, r :| 0 <= d < r < n && IsOutage(polls, d, r) {
      assert !IsUp(polls[d]) && Recovers(polls, r);
      assert r == n - 1;
    }
  }

  predicate Shows(t: Transition, a: Attempt) {
    t.status == Status(a) && t.errorKind == ReportedKind(a)
  }

  /** Neighbouring transitions differ, and the last one shows the last observation: the history, run by run. */
  lemma {:induction false} TransitionsAreHistory(polls: seq<Poll>, n: nat, origin: real)
    requires n <= |polls|
    ensures
      var transitions := Compressed(polls, n, origin);
      && (transitions == [] <==> n == 0)
      && (n > 0 ==> Shows(transitions[|transitions| - 1], polls[n - 1].attempt))
      && forall i, j :: 0 <= i && j == i + 1 < |transitions| ==>
           transitions[i].status != transitions[j].status || transitions[i].errorKind != transitions[j].errorKind
  {
    if n > 0 {
      TransitionsAreHistory(polls, n - 1, origin);
    }
  }

  /** Transitions are only appended, so every earlier observation stays accounted for. */
  lemma {:induction false} TransitionsGrow(polls: seq<Poll>, i: nat, n: nat, origin: real)
    requires i <= n <= |polls|
    ensures Compressed(polls, i, origin) <= Compressed(polls, n, origin)
  {
    if i < n {
      TransitionsGrow(polls, i, n - 1, origin);
    }
  }

  // ----- the rest of the report, in the words of the trace

  /** Before attempt `j` the loop goes on: the process runs, and the caller waits or something went down. */
  predicate GoesOn(polls: seq<Poll>, j: nat)
    requires j < |polls|
  {
    && !polls[j].processDone
    && (polls[j].done && j > 0 ==> exists d :: 0 <= d < j && polls[d].attempt != Answered(200))
  }

  /** Attempt `j` sees the server again, after it was down. */
  predicate SeesRecovery(polls: seq<Poll>, j: nat)
    requires j < |polls|
  {
    polls[j].attempt == Answered(200) && exists d :: 0 <= d < j && polls[d].attempt != Answered(200)
  }

  /** How many attempts are made: the loop ends at the first reason, and for no other. */
  lemma AttemptsAreMade(polls: seq<Poll>)
    ensures
      var n := Made(polls, 0);
      && n <= |polls|
      && (forall j :: 0 <= j < n ==> GoesOn(polls, j))
      && (forall j :: 0 <= j < n - 1 ==> !SeesRecovery(polls, j))
      && (n < |polls| ==> !GoesOn(polls, n) || (n > 0 && SeesRecovery(polls, n - 1)))
  {
    forall j | 0 <= j < |polls|
      ensures GoesOn(polls, j) <==> !StopsBefore(polls, j)
      ensures SeesRecovery(polls, j) <==> Recovers(polls, j)
    {
      DownMeansNotAllUp(polls, j);
    }
  }

  lemma DownMeansNotAllUp(polls: seq<Poll>, n: nat)
    requires n <= |polls|
    ensures AllUp(polls, n) <==> !exists d :: 0 <= d < n && polls[d].attempt != Answered(200)
  {
  }

  /** The kind of error an attempt shows, if it shows one. */
  predicate ShowsKind(a: Attempt, kind: string) {
    match a
    case Answered(code) => code != 200 && kind == "http-" + Decimal(code)
    case NoAnswer(k) => k != "" && kind == k
  }

  predicate IsSilent(a: Attempt) {
    a == Answered(200) || a == NoAnswer("")
  }

  lemma ReportedKinds(a: Attempt, kind: string)
    ensures ReportedKind(a) == Some(kind) <==> ShowsKind(a, kind)
    ensures ReportedKind(a).None? <==> IsSilent(a)
  {
  }

  /** Attempt `j` shows the kind, and no earlier one shows any. */
  predicate IsFirstKindAt(polls: seq<Poll>, j: nat, kind: string)
    requires j < |polls|
  {
    ShowsKind(polls[j].attempt, kind) && forall i :: 0 <= i < j ==> IsSilent(polls[i].attempt)
  }

  lemma {:induction false} FirstKindIs(polls: seq<Poll>, n: nat, kind: string)
    requires n <= |polls|
    ensures FirstKind(polls, n).None? <==> forall j :: 0 <= j < n ==> IsSilent(polls[j].attempt)
    ensures FirstKind(polls, n) == Some(kind) <==> exists j :: 0 <= j < n && IsFirstKindAt(polls, j, kind)
  {
    if n > 0 {
      FirstKindIs(polls, n - 1, kind);
      ReportedKinds(polls[n - 1].attempt, kind);
      if FirstKind(polls, n - 1).None? {
        assert ShowsKind(polls[n - 1].attempt, kind) ==> IsFirstKindAt(polls, n - 1, kind);
        assert forall j :: 0 <= j < n - 1 ==> IsSilent(polls[j].attempt) && !ShowsKind(polls[j].attempt, kind);
      } else {
        assert !IsFirstKindAt(polls, n - 1, kind);
      }
    }
  }

  /** The status and the error kind of the report, and `ms` when nothing went down. */
  lemma ReportSays(polls: seq<Poll>, sentAt: real, kind: string)
    ensures
      var n := Made(polls, 0);
      var report := Report(polls, n, sentAt);
      && (report.status == if n == 0 then None else match polls[n - 1].attempt case Answered(c) => Some(c) case _ => None)
      && (report.firstErrorKind == Some(kind) <==> exists j :: 0 <= j < n && IsFirstKindAt(polls, j, kind))
      && (n > 0 && report.unavailableMs.None? ==> report.ms == Some(polls[n - 1].now - sentAt))
      && (report.firstRecoveryMs.Some? <==> report.downtimeMs.Some?)
      && report.transitions == Compressed(polls, n, sentAt)
  {
    var n := Made(polls, 0);
    FirstKindIs(polls, n, kind);
  }

  /** The number of the transition that the observation of attempt `i` belongs to. */
  function ChangesBefore(polls: seq<Poll>, i: nat): nat
    requires i <= |polls|
  {
    if i == 0 then 0 else ChangesBefore(polls, i - 1) + if Changes(polls, i - 1) then 1 else 0
  }

  /** Every change is a transition, in order, at the time it was seen; there are no others. */
  lemma {:induction false} TransitionsAreChanges(polls: seq<Poll>, n: nat, origin: real, i: nat)
    requires i < n <= |polls| && (i == 0 || polls[i].attempt != polls[i - 1].attempt)
    ensures |Compressed(polls, n, origin)| == ChangesBefore(polls, n) > ChangesBefore(polls, i)
    ensures
      var t := Compressed(polls, n, origin)[ChangesBefore(polls, i)];
      t.ms == polls[i].now - origin && Shows(t, polls[i].attempt)
  {
    if i < n - 1 {
      TransitionsAreChanges(polls, n - 1, origin, i);
    } else {
      LengthIsChanges(polls, i, origin);
    }
  }

  lemma {:induction false} LengthIsChanges(polls: seq<Poll>, n: nat, origin: real)
    requires n <= |polls|
    ensures |Compressed(polls, n, origin)| == ChangesBefore(polls, n)
  {
    if n > 0 {
      LengthIsChanges(polls, n - 1, origin);
    }
  }
}
