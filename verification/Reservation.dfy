/** Reserving an output directory below the repository, while other processes do the same. */
module Reservation {
  import opened Wrappers

  /** A path below the repository root, segment by segment; the root is the empty path. */
  type Path = seq<string>

  datatype Node = Directory | File | Symlink

  datatype Refusal = OutsideRepository | TraversesSymlink | AlreadyExists | ParentNotDirectory | IoError

  // ----- one process, between two system calls

  /** The next system call is on segment `k`; or the process is done. */
  datatype Phase = Lstat(k: nat) | Mkdir(k: nat) | Reserved | Refused(reason: Refusal)

  /** `rounds` counts the calls of `lstat` for the current segment, `calls` all system calls. */
  datatype Process = Process(target: Path, phase: Phase, rounds: nat, calls: nat)

  function Begin(target: Path): Process {
    Process(target, if target == [] || target[0] == ".." then Refused(OutsideRepository) else Lstat(0), 0, 0)
  }

  predicate IsAt(p: Process) {
    (p.phase.Lstat? || p.phase.Mkdir?) ==> p.phase.k < |p.target|
  }

  /** What the process is about to look at or create. */
  function Current(p: Process): Path
    requires IsAt(p) && (p.phase.Lstat? || p.phase.Mkdir?)
  {
    p.target[..p.phase.k + 1]
  }

  /** After a call: the error ENOENT is `Ok(None)`, any other error is an `Err`. */
  function AfterLstat(p: Process, found: Result<Option<Node>, ()>): Process
    requires p.phase.Lstat?
  {
    var k := p.phase.k;
    var called := p.(calls := p.calls + 1, rounds := p.rounds + 1);
    match found
    case Err(_) => called.(phase := Refused(IoError))
    case Ok(None) => called.(phase := Mkdir(k))
    case Ok(Some(node)) =>
      if node == Symlink then called.(phase := Refused(TraversesSymlink))
      else if k + 1 == |p.target| then called.(phase := Refused(AlreadyExists))
      else if node != Directory then called.(phase := Refused(ParentNotDirectory))
      else called.(phase := Lstat(k + 1), rounds := 0)
  }

  /** After a call: the error EEXIST is `Ok(false)`, any other error is an `Err`. */
  function AfterMkdir(p: Process, created: Result<bool, ()>): Process
    requires p.phase.Mkdir?
  {
    var k := p.phase.k;
    var called := p.(calls := p.calls + 1);
    match created
    case Err(_) => called.(phase := Refused(IoError))
    case Ok(false) => called.(phase := Lstat(k))
    case Ok(true) => called.(phase := if k + 1 == |p.target| then Reserved else Lstat(k + 1), rounds := 0)
  }

  // ----- the file system, on which nothing is removed

  /** The nodes below the root, and which process made the directories it made. */
  datatype Disk = Disk(nodes: map<Path, Node>, maker: map<Path, nat>)

  predicate ParentIsDirectory(nodes: map<Path, Node>, path: Path) {
    |path| <= 1 || (path[..|path| - 1] in nodes && nodes[path[..|path| - 1]] == Directory)
  }

  function Look(disk: Disk, path: Path, fault: bool): Result<Option<Node>, ()> {
    if fault then Err(())
    else if path in disk.nodes then Ok(Some(disk.nodes[path]))
    else Ok(None)
  }

  function Make(disk: Disk, path: Path, who: nat, fault: bool): (Result<bool, ()>, Disk) {
    if fault then (Err(()), disk)
    else if path in disk.nodes then (Ok(false), disk)
    else if !ParentIsDirectory(disk.nodes, path) then (Err(()), disk)
    else (Ok(true), Disk(disk.nodes[path := Directory], disk.maker[path := who]))
  }

  // ----- any number of processes, one system call at a time

  datatype World = World(disk: Disk, processes: seq<Process>)

  /** A process makes its next call, or something else makes a node where there is none. */
  datatype Event = Call(who: nat, fault: bool) | Appear(path: Path, node: Node)

  function Step(w: World, e: Event): World {
    match e
    case Appear(path, node) =>
      if path in w.disk.nodes then w else w.(disk := w.disk.(nodes := w.disk.nodes[path := node]))
    case Call(who, fault) =>
      if who >= |w.processes| || !IsAt(w.processes[who]) then w
      else
        var p := w.processes[who];
        match p.phase
        case Lstat(_) => w.(processes := w.processes[who := AfterLstat(p, Look(w.disk, Current(p), fault))])
        case Mkdir(_) =>
          var (created, disk) := Make(w.disk, Current(p), who, fault);
          World(disk, w.processes[who := AfterMkdir(p, created)])
        case _ => w
  }

  function Starting(nodes: map<Path, Node>, targets: seq<Path>): World {
    World(Disk(nodes, map[]), seq(|targets|, i requires 0 <= i < |targets| => Begin(targets[i])))
  }

  function Execute(nodes: map<Path, Node>, targets: seq<Path>, events: seq<Event>): World {
    if events == [] then Starting(nodes, targets)
    else Step(Execute(nodes, targets, events[..|events| - 1]), events[|events| - 1])
  }

  // ----- what every interleaving keeps

  /** Below the root, and not the root itself. */
  predicate IsInside(target: Path) {
    target != [] && target[0] != ".."
  }

  predicate AreDirectories(nodes: map<Path, Node>, target: Path, n: nat)
    requires n <= |target|
  {
    forall j :: 1 <= j <= n ==> target[..j] in nodes && nodes[target[..j]] == Directory
  }

  predicate Grows(before: map<Path, Node>, after: map<Path, Node>) {
    forall path <- before :: path in after && after[path] == before[path]
  }

  /** What on the disk makes a process give up. */
  predicate HasReason(disk: Disk, target: Path, reason: Refusal) {
    match reason
    case OutsideRepository => !IsInside(target)
    case TraversesSymlink => exists j :: 1 <= j <= |target| && target[..j] in disk.nodes && disk.nodes[target[..j]] == Symlink
    case AlreadyExists => target in disk.nodes && disk.nodes[target] != Symlink
    case ParentNotDirectory => exists j :: 1 <= j < |target| && target[..j] in disk.nodes && disk.nodes[target[..j]] == File
    case IoError => true
  }

  /** A process has seen directories so far, and looks a second time only at something that is there. */
  predicate IsSound(disk: Disk, p: Process, who: nat) {
    && IsAt(p) && (p.phase == Refused(OutsideRepository) <==> !IsInside(p.target))
    && match p.phase
       case Lstat(k) =>
         && AreDirectories(disk.nodes, p.target, k) && p.rounds <= 1 && p.calls <= 4 * k + 2 * p.rounds
         && (p.rounds == 1 ==> Current(p) in disk.nodes)
       case Mkdir(k) =>
         AreDirectories(disk.nodes, p.target, k) && p.rounds == 1 && p.calls <= 4 * k + 1
       case Reserved =>
         && AreDirectories(disk.nodes, p.target, |p.target|) && p.calls <= 4 * |p.target|
         && p.target in disk.maker && disk.maker[p.target] == who
       case Refused(reason) => p.rounds <= 2 && p.calls <= 4 * |p.target| && HasReason(disk, p.target, reason)
  }

  predicate IsSoundWorld(w: World, initial: map<Path, Node>) {
    && Grows(initial, w.disk.nodes)
    && (forall path <- w.disk.maker :: path !in initial && path in w.disk.nodes)
    && forall i :: 0 <= i < |w.processes| ==> IsSound(w.disk, w.processes[i], i)
  }

  lemma SoundnessSurvives(before: Disk, after: Disk, p: Process, who: nat)
    requires IsSound(before, p, who) && Grows(before.nodes, after.nodes)
    requires forall path <- before.maker :: path in after.maker && after.maker[path] == before.maker[path]
    ensures IsSound(after, p, who)
  {
  }

  lemma OwnCallIsSound(disk: Disk, p: Process, who: nat, fault: bool)
    requires IsSound(disk, p, who) && (forall path <- disk.maker :: path in disk.nodes)
    ensures p.phase.Lstat? ==> IsSound(disk, AfterLstat(p, Look(disk, Current(p), fault)), who)
    ensures p.phase.Mkdir? ==>
              var (created, after) := Make(disk, Current(p), who, fault);
              && Grows(disk.nodes, after.nodes) && IsSound(after, AfterMkdir(p, created), who)
              && (forall path <- disk.maker :: path in after.maker && after.maker[path] == disk.maker[path])
  {
    if p.phase.Lstat? || p.phase.Mkdir? {
      var k := p.phase.k;
      assert forall j :: 1 <= j <= k + 1 ==> j <= k || p.target[..j] == Current(p);
      assert k + 1 == |p.target| ==> Current(p) == p.target;
    }
  }

  lemma StepIsSound(w: World, e: Event, initial: map<Path, Node>)
    requires IsSoundWorld(w, initial)
    ensures IsSoundWorld(Step(w, e), initial)
  {
    var after := Step(w, e);
    if e.Call? && e.who < |w.processes| {
      OwnCallIsSound(w.disk, w.processes[e.who], e.who, e.fault);
    }
    forall i | 0 <= i < |after.processes|
      ensures IsSound(after.disk, after.processes[i], i)
    {
      if e.Appear? || i != e.who {
        SoundnessSurvives(w.disk, after.disk, w.processes[i], i);
      }
    }
  }

  /** Each process still goes for the target it was given. */
  predicate AreFor(processes: seq<Process>, targets: seq<Path>) {
    |processes| == |targets| && forall i :: 0 <= i < |targets| ==> processes[i].target == targets[i]
  }

  lemma {:induction false} ExecutionIsSound(nodes: map<Path, Node>, targets: seq<Path>, events: seq<Event>)
    ensures IsSoundWorld(Execute(nodes, targets, events), nodes)
    ensures AreFor(Execute(nodes, targets, events).processes, targets)
  {
    if events != [] {
      ExecutionIsSound(nodes, targets, events[..|events| - 1]);
      StepIsSound(Execute(nodes, targets, events[..|events| - 1]), events[|events| - 1], nodes);
    }
  }

  /** Of all processes with the same target, at most one reserves it. */
  lemma AtMostOneReserves(nodes: map<Path, Node>, targets: seq<Path>, events: seq<Event>, a: nat, b: nat)
    requires a < |targets| && b < |targets|
    ensures
      var processes := Execute(nodes, targets, events).processes;
      |processes| == |targets|
      && (processes[a].phase == Reserved && processes[b].phase == Reserved && targets[a] == targets[b] ==> a == b)
  {
    ExecutionIsSound(nodes, targets, events);
  }

  /** It was not there before, the winner made it, and everything on the way is a directory, not a link. */
  lemma WinnerMadeIt(nodes: map<Path, Node>, targets: seq<Path>, events: seq<Event>, who: nat)
    requires who < |targets| == |Execute(nodes, targets, events).processes|
    requires Execute(nodes, targets, events).processes[who].phase == Reserved
    ensures
      var w, target := Execute(nodes, targets, events), targets[who];
      && IsInside(target) && target !in nodes && target in w.disk.maker && w.disk.maker[target] == who
      && AreDirectories(w.disk.nodes, target, |target|)
  {
    ExecutionIsSound(nodes, targets, events);
  }

  lemma OnlyFaultsFail(w: World, e: Event, initial: map<Path, Node>, who: nat)
    requires IsSoundWorld(w, initial) && who < |w.processes| && w.processes[who].phase != Refused(IoError)
    requires |Step(w, e).processes| == |w.processes| && Step(w, e).processes[who].phase == Refused(IoError)
    ensures e == Call(who, true)
  {
    var p := w.processes[who];
    assert IsSound(w.disk, p, who);
    if p.phase.Mkdir? {
      var k, path := p.phase.k, Current(p);
      assert path[..|path| - 1] == p.target[..k];
    }
  }

  /** A process gives up only for its reason: outside the repository, what is on the disk, or a fault of its own. */
  lemma {:induction false} RefusalsHaveReasons(nodes: map<Path, Node>, targets: seq<Path>, events: seq<Event>, who: nat)
    requires who < |targets|
    ensures
      var w := Execute(nodes, targets, events);
      && |w.processes| == |targets|
      && (w.processes[who].phase == Refused(OutsideRepository) <==> !IsInside(targets[who]))
      && (w.processes[who].phase.Refused? ==> HasReason(w.disk, targets[who], w.processes[who].phase.reason))
      && (w.processes[who].phase == Refused(IoError) ==> Call(who, true) in events)
  {
    ExecutionIsSound(nodes, targets, events);
    if events != [] {
      var before, last := events[..|events| - 1], events[|events| - 1];
      RefusalsHaveReasons(nodes, targets, before, who);
      ExecutionIsSound(nodes, targets, before);
      if Execute(nodes, targets, before).processes[who].phase != Execute(nodes, targets, events).processes[who].phase == Refused(IoError) {
        OnlyFaultsFail(Execute(nodes, targets, before), last, nodes, who);
      }
    }
  }

  /** At most two rounds for a segment, and so at most four calls; faults and appearances included. */
  lemma RoundsAreBounded(nodes: map<Path, Node>, targets: seq<Path>, events: seq<Event>, who: nat)
    requires who < |targets|
    ensures
      var processes := Execute(nodes, targets, events).processes;
      |processes| == |targets| && processes[who].rounds <= 2 && processes[who].calls <= 4 * |targets[who]|
  {
    ExecutionIsSound(nodes, targets, events);
  }

  // ----- a race without interference has a winner

  predicate HasWinner(processes: seq<Process>) {
    exists i :: 0 <= i < |processes| && processes[i].phase == Reserved
  }

  predicate IsRace(w: World, target: Path) {
    && target != [] && target[0] != ".."
    && (forall j :: 1 <= j <= |target| && target[..j] in w.disk.nodes ==> w.disk.nodes[target[..j]] == Directory)
    && (target in w.disk.nodes ==> HasWinner(w.processes))
    && forall i :: 0 <= i < |w.processes| ==> IsRacer(w.processes[i], w.disk, target)
  }

  predicate IsRacer(p: Process, disk: Disk, target: Path) {
    p.target == target && (p.phase.Refused? ==> p.phase.reason == AlreadyExists && target in disk.nodes)
  }

  lemma RacerCall(w: World, initial: map<Path, Node>, target: Path, who: nat)
    requires IsSoundWorld(w, initial) && IsRace(w, target) && who < |w.processes|
    ensures
      var after := Step(w, Call(who, false));
      && (forall j :: 1 <= j <= |target| && target[..j] in after.disk.nodes ==> after.disk.nodes[target[..j]] == Directory)
      && Grows(w.disk.nodes, after.disk.nodes) && IsRacer(after.processes[who], after.disk, target)
      && (w.processes[who].phase == Reserved ==> after.processes[who].phase == Reserved)
      && (target in after.disk.nodes && target !in w.disk.nodes ==> after.processes[who].phase == Reserved)
  {
    var p := w.processes[who];
    assert IsSound(w.disk, p, who) && IsRacer(p, w.disk, target);
    if p.phase.Lstat? || p.phase.Mkdir? {
      var path := Current(p);
      assert path == target[..p.phase.k + 1];
      assert p.phase.k + 1 == |target| <==> path == target;
      assert path[..|path| - 1] == target[..p.phase.k];
    }
  }

  lemma RaceGoesOn(w: World, initial: map<Path, Node>, target: Path, who: nat)
    requires IsSoundWorld(w, initial) && IsRace(w, target)
    ensures IsRace(Step(w, Call(who, false)), target)
  {
    if who < |w.processes| {
      RacerCall(w, initial, target, who);
      var after := Step(w, Call(who, false));
      assert forall i :: 0 <= i < |after.processes| && i != who ==> after.processes[i] == w.processes[i];
      forall i | 0 <= i < |after.processes|
        ensures IsRacer(after.processes[i], after.disk, target)
      {
        assert IsRacer(w.processes[i], w.disk, target);
      }
      if target in w.disk.nodes {
        var i :| 0 <= i < |w.processes| && w.processes[i].phase == Reserved;
        assert after.processes[i].phase == Reserved;
      } else if target in after.disk.nodes {
        assert after.processes[who].phase == Reserved;
      }
    }
  }

  lemma OneReserves(nodes: map<Path, Node>, target: Path, n: nat, events: seq<Event>)
    ensures
      var processes := Execute(nodes, seq(n, _ => target), events).processes;
      && |processes| == n
      && forall i, j :: 0 <= i < j < n ==> !(processes[i].phase == processes[j].phase == Reserved)
  {
    ExecutionIsSound(nodes, seq(n, _ => target), events);
  }

  /**
   Processes racing for the same absent target below existing directories, with no faults and no other
   activity: as soon as any of them is done, exactly one has reserved the target.
   */
  lemma {:induction false} RaceHasOneWinner(nodes: map<Path, Node>, target: Path, n: nat, events: seq<Event>)
    requires target != [] && target[0] != ".." && target !in nodes
    requires forall j :: 1 <= j <= |target| && target[..j] in nodes ==> nodes[target[..j]] == Directory
    requires forall e <- events :: e.Call? && !e.fault
    ensures
      var w := Execute(nodes, seq(n, _ => target), events);
      && IsRace(w, target)
      && ((exists p <- w.processes :: p.phase.Reserved? || p.phase.Refused?) ==> HasWinner(w.processes))
      && (forall i, j :: 0 <= i < j < |w.processes| ==> !(w.processes[i].phase == w.processes[j].phase == Reserved))
  {
    var targets := seq(n, _ => target);
    if events != [] {
      var before := events[..|events| - 1];
      RaceHasOneWinner(nodes, target, n, before);
      ExecutionIsSound(nodes, targets, before);
      RaceGoesOn(Execute(nodes, targets, before), nodes, target, events[|events| - 1].who);
    }
    var w := Execute(nodes, targets, events);
    OneReserves(nodes, target, n, events);
    if p :| p in w.processes && (p.phase.Reserved? || p.phase.Refused?) {
      var i :| 0 <= i < |w.processes| && w.processes[i] == p;
      assert IsRacer(w.processes[i], w.disk, target);
    }
  }

  // ----- the loop itself, over a shared file system

  predicate IsDisk(disk: Disk) {
    forall path <- disk.maker :: path in disk.nodes
  }

  /** What the rest of the world may do between two system calls of process `who`. */
  predicate OthersMayTurn(before: Disk, after: Disk, who: nat) {
    && Grows(before.nodes, after.nodes) && IsDisk(after)
    && (forall path <- before.maker :: path in after.maker && after.maker[path] == before.maker[path])
    && (forall path <- after.maker :: path in before.maker || after.maker[path] != who)
  }

  class FileSystem {
    var disk: Disk

    method Others(who: nat)
      requires IsDisk(disk)
      modifies this
      ensures OthersMayTurn(old(disk), disk, who)
    {
      var turned: Disk := *;
      if OthersMayTurn(disk, turned, who) {
        disk := turned;
      }
    }

    /** `lstat` by a process that is about to call it: the phases above say what the answer does to it. */
    method LstatCall(who: nat, path: Path, ghost p: Process) returns (found: Result<Option<Node>, ()>, ghost next: Process)
      requires IsDisk(disk) && IsSound(disk, p, who) && p.phase.Lstat? && path == Current(p)
      modifies this
      ensures IsDisk(disk) && Grows(old(disk.nodes), disk.nodes)
      ensures next == AfterLstat(p, found) && IsSound(disk, next, who)
    {
      Others(who);
      SoundnessSurvives(old(disk), disk, p, who);
      var fault: bool := *;
      OwnCallIsSound(disk, p, who, fault);
      found := Look(disk, path, fault);
      next := AfterLstat(p, found);
    }

    method MkdirCall(who: nat, path: Path, ghost p: Process) returns (created: Result<bool, ()>, ghost next: Process)
      requires IsDisk(disk) && IsSound(disk, p, who) && p.phase.Mkdir? && path == Current(p)
      modifies this
      ensures IsDisk(disk) && Grows(old(disk.nodes), disk.nodes)
      ensures next == AfterMkdir(p, created) && IsSound(disk, next, who)
      ensures created == Ok(true) ==> path !in old(disk.nodes)
    {
      Others(who);
      SoundnessSurvives(old(disk), disk, p, who);
      var fault: bool := *;
      OwnCallIsSound(disk, p, who, fault);
      var made := Make(disk, path, who, fault);
      created, disk := made.0, made.1;
      next := AfterMkdir(p, created);
    }
  }

  /** One segment: the calls end past the segment, or refused. */
  method EnterSegment(fs: FileSystem, who: nat, segments: Path, k: nat, ghost before: Process)
    returns (r: Result<(), Refusal>, ghost process: Process)
    requires IsDisk(fs.disk) && k < |segments| && before.target == segments
    requires IsSound(fs.disk, before, who) && before.phase == Lstat(k) && before.rounds == 0
    modifies fs
    ensures IsDisk(fs.disk) && Grows(old(fs.disk.nodes), fs.disk.nodes)
    ensures process.target == segments && IsSound(fs.disk, process, who)
    ensures process.phase == match r
              case Ok(_) => if k + 1 == |segments| then Reserved else Lstat(k + 1)
              case Err(reason) => Refused(reason)
    ensures r.Ok? ==> process.rounds == 0
    ensures process.phase == Reserved ==> segments !in old(fs.disk.nodes)
  {
    var current := segments[..k + 1];
    assert (current == segments) == (k + 1 == |segments|);
    process := before;
    while true
      invariant IsDisk(fs.disk) && Grows(old(fs.disk.nodes), fs.disk.nodes)
      invariant process.target == segments && IsSound(fs.disk, process, who) && process.phase == Lstat(k)
      decreases 2 - process.rounds
    {
      var found;
      found, process := fs.LstatCall(who, current, process);
      if found.Err? {
        return Err(IoError), process;
      }
      if found.value.Some? {
        var stats := found.value.value;
        if stats == Symlink {
          return Err(TraversesSymlink), process;
        }
        if current == segments {
          return Err(AlreadyExists), process;
        }
        if stats != Directory {
          return Err(ParentNotDirectory), process;
        }
        return Ok(()), process;
      }
      var created;
      created, process := fs.MkdirCall(who, current, process);
      if created.Err? {
        return Err(IoError), process;
      }
      if created.value {
        return Ok(()), process;
      }
    }
  }

  method ReserveOutputDir(fs: FileSystem, who: nat, segments: Path) returns (r: Result<(), Refusal>, ghost process: Process)
    requires IsDisk(fs.disk)
    modifies fs
    ensures process.target == segments && IsSound(fs.disk, process, who)
    ensures process.phase == match r case Ok(_) => Reserved case Err(reason) => Refused(reason)
    ensures r == Err(OutsideRepository) <==> segments == [] || segments[0] == ".."
    ensures r == Err(OutsideRepository) ==> fs.disk == old(fs.disk)
    ensures r.Ok? ==> segments !in old(fs.disk.nodes)
    ensures Grows(old(fs.disk.nodes), fs.disk.nodes)
  {
    process := Begin(segments);
    if segments == [] || segments[0] == ".." {
      return Err(OutsideRepository), process;
    }
    for k := 0 to |segments|
      invariant IsDisk(fs.disk) && Grows(old(fs.disk.nodes), fs.disk.nodes)
      invariant process.target == segments && IsSound(fs.disk, process, who) && process.rounds == 0
      invariant process.phase == if k == |segments| then Reserved else Lstat(k)
      invariant k == |segments| ==> segments !in old(fs.disk.nodes)
    {
      var entered;
      entered, process := EnterSegment(fs, who, segments, k, process);
      if entered.Err? {
        return Err(entered.error), process;
      }
    }
    return Ok(()), process;
  }
}
