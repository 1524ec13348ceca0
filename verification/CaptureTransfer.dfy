/**
  capture_transfer as a transition system: the main coroutine, its cleanup task,
  the two drains and the child interleave at their await points, one atomic step
  per chunk (scripts/m8_candidate_transfer.py).
 */
module CaptureTransfer {
  import opened Texts
  import opened Wrappers
  import opened TransferCodec

  const STDERR_BOUND := 1024
  const READ_SIZE := 8192

  datatype Stream = Stdout | Stderr

  function Bound(stream: Stream): nat {
    match stream
    case Stdout => MAX_ARTIFACT
    case Stderr => STDERR_BOUND
  }

  /** One pipe: its drain tasks, what they have read, and where they put it. */
  datatype Pipe = Pipe(readers: nat, read: Text, buffer: Text, file: Text, reported: nat, eof: bool)

  datatype Spawn = Unrequested | Pending | Born | Failed

  /** Where the main coroutine, or the cleanup it waits for, will resume. */
  datatype Pc =
    | Opening | AwaitSpawn | AwaitExchange
    | CleanupStart | CleanupJoin | CleanupWait | CleanupExchange
    | Syncing | PublishArtifact | PublishStatus | Finished

  /** status.json as written. */
  datatype Status = Status(complete: bool, launchRequested: bool, returncode: Option<int>,
                           stdoutEof: bool, stderrEof: bool, stdoutBytes: nat, stderrBytes: nat,
                           overflow: bool, timedOut: bool, ioFailed: bool)

  /** The shared capture state: both pipes, `overflow` and `capture_io_failed`. */
  datatype Io = Io(out: Pipe, err: Pipe, overflow: bool, ioFailed: bool)

  /** The spawn task, whether `process` is bound, its return code, and whether it was killed. */
  datatype Process = Process(spawn: Spawn, known: bool, returncode: Option<int>, killed: bool)

  /** What has been decided and published. */
  datatype Verdict = Verdict(accepted: bool, interrupted: bool, timedOut: bool, recorded: Option<int>,
                             complete: bool, artifact: Option<Text>, status: Option<Status>, statusFailed: bool)

  datatype State = State(pc: Pc, process: Process, io: Io, exchange: bool, handlesOpen: bool, verdict: Verdict)

  /** What handle.write did with the admitted part of a chunk. */
  datatype Write = Wrote(n: nat) | Raised

  datatype Event =
    | HandlesOpened | HandlesFailed
    | SpawnReturned(ok: bool) | ProcessReceived | SpawnRaised
    | TimeoutFired | Cancelled
    | Chunk(stream: Stream, data: Text, write: Write) | PipeClosed(stream: Stream)
    | ChildExited(code: int) | ExchangeDone
    | CleanupResumed
    | Synced(ok: bool) | ArtifactWritten(ok: bool) | StatusWritten(ok: bool)

  const FRESH := Pipe(0, [], [], [], 0, false)

  const INITIAL := State(Opening, Process(Unrequested, false, None, false), Io(FRESH, FRESH, false, false), false, false,
                         Verdict(false, false, false, None, false, None, None, false))

  function PipeOf(io: Io, stream: Stream): Pipe {
    match stream
    case Stdout => io.out
    case Stderr => io.err
  }

  function WithPipe(io: Io, stream: Stream, p: Pipe): Io {
    match stream
    case Stdout => io.(out := p)
    case Stderr => io.(err := p)
  }

  function Min(a: nat, b: nat): nat { if a < b then a else b }

  function Room(p: Pipe, bound: nat): nat {
    if |p.buffer| >= bound + 1 then 0 else bound + 1 - |p.buffer|
  }

  /** The part of a chunk the buffer admits. */
  function Admitted(p: Pipe, bound: nat, data: Text): Text {
    data[..Min(Room(p, bound), |data|)]
  }

  predicate Overfull(p: Pipe, bound: nat, data: Text) {
    |data| > Room(p, bound) || |p.buffer + Admitted(p, bound, data)| > bound
  }

  function DrainPipe(p: Pipe, bound: nat, data: Text, write: Write, skip: bool): Pipe
    requires write.Wrote? ==> write.n <= |Admitted(p, bound, data)|
  {
    var piece := Admitted(p, bound, data);
    var buffer := p.buffer + piece;
    var file := if skip || write.Raised? then p.file else p.file + piece[..write.n];
    p.(read := p.read + data, buffer := buffer, file := file, reported := |buffer|)
  }

  /** One iteration of drain's loop, but for the kill. */
  function Drain(io: Io, stream: Stream, data: Text, write: Write): Io
    requires write.Wrote? ==> write.n <= |Admitted(PipeOf(io, stream), Bound(stream), data)|
  {
    var p, bound := PipeOf(io, stream), Bound(stream);
    WithPipe(io, stream, DrainPipe(p, bound, data, write, io.ioFailed))
      .(ioFailed := io.ioFailed || write.Raised? || write.n != |Admitted(p, bound, data)|,
        overflow := io.overflow || Overfull(p, bound, data))
  }

  /** process.kill() when the process is known and still running. */
  function Kill(p: Process): Process {
    if p.known && p.returncode.None? then p.(killed := true) else p
  }

  function Enrol(io: Io): Io {
    io.(out := io.out.(readers := io.out.readers + 1), err := io.err.(readers := io.err.readers + 1))
  }

  predicate Awaiting(pc: Pc) { pc == AwaitSpawn || pc == AwaitExchange }

  predicate Cleaning(pc: Pc) {
    pc == CleanupStart || pc == CleanupJoin || pc == CleanupWait || pc == CleanupExchange
  }

  predicate Ended(io: Io) { io.out.eof && io.err.eof }

  /** One step of the cleanup task; None while what it awaits is unfinished. */
  function Cleanup(s: State): Option<State> {
    match s.pc
    case CleanupStart =>
      if s.process.known || s.process.spawn == Born then
        Some(s.(process := Kill(s.process.(known := true)),
                io := if s.io.out.readers == 0 && s.io.err.readers == 0 then Enrol(s.io) else s.io,
                pc := CleanupJoin))
      else if s.process.spawn == Failed then Some(s.(handlesOpen := false, pc := PublishStatus))
      else None
    case CleanupJoin => if Ended(s.io) then Some(s.(pc := CleanupWait)) else None
    case CleanupWait =>
      if s.process.returncode.None? then None
      else Some(s.(verdict := s.verdict.(recorded := s.process.returncode), pc := CleanupExchange))
    case CleanupExchange =>
      if s.verdict.interrupted then Some(s.(handlesOpen := false, pc := PublishStatus))
      else Some(s.(pc := Syncing))
    case _ => None
  }

  /** The check of the finished exchange, parse_artifact included. */
  predicate Judged(s: State, parses: Text -> bool) {
    && s.process.returncode == Some(0) && Ended(s.io) && !s.io.overflow && !s.io.ioFailed
    && s.io.err.buffer == [] && parses(s.io.out.buffer)
  }

  function Snapshot(s: State): Status {
    Status(s.verdict.complete, s.process.spawn != Unrequested, s.verdict.recorded, s.io.out.eof, s.io.err.eof,
           s.io.out.reported, s.io.err.reported, s.io.overflow, s.verdict.timedOut, s.io.ioFailed)
  }

  /** Opening the capture files and launching the child. */
  function LaunchStep(s: State, e: Event): Option<State> {
    match e
    case HandlesOpened =>
      if s.pc != Opening then None
      else Some(s.(pc := AwaitSpawn, handlesOpen := true, process := s.process.(spawn := Pending)))
    case HandlesFailed => if s.pc != Opening then None else Some(s.(pc := PublishStatus))
    case SpawnReturned(ok) =>
      if s.process.spawn != Pending then None
      else Some(s.(process := s.process.(spawn := if ok then Born else Failed)))
    case _ => None
  }

  /** What the main coroutine sees at its two awaits, and a cancellation at any. */
  function MainStep(s: State, e: Event, parses: Text -> bool): Option<State> {
    match e
    case ProcessReceived =>
      if s.pc != AwaitSpawn || s.process.spawn != Born then None
      else Some(s.(io := Enrol(s.io), process := s.process.(known := true), exchange := true, pc := AwaitExchange))
    case SpawnRaised =>
      if s.pc != AwaitSpawn || s.process.spawn != Failed then None else Some(s.(pc := CleanupStart))
    case TimeoutFired =>
      if !Awaiting(s.pc) then None
      else Some(s.(verdict := s.verdict.(timedOut := true), pc := CleanupStart))
    case Cancelled =>
      if Awaiting(s.pc) then Some(s.(pc := CleanupStart))
      else if Cleaning(s.pc) then Some(s.(verdict := s.verdict.(interrupted := true)))
      else None
    case ExchangeDone =>
      if s.pc != AwaitExchange || s.process.returncode.None? || !Ended(s.io) then None
      else Some(s.(verdict := s.verdict.(recorded := s.process.returncode, accepted := Judged(s, parses)),
                   pc := CleanupStart))
    case _ => None
  }

  /** The drains and the child itself. */
  function ChildStep(s: State, e: Event): Option<State> {
    match e
    case Chunk(stream, data, write) =>
      var p := PipeOf(s.io, stream);
      if p.readers == 0 || p.eof || !(1 <= |data| <= READ_SIZE) then None
      else if write.Wrote? && write.n > |Admitted(p, Bound(stream), data)| then None
      else
        var io := Drain(s.io, stream, data, write);
        Some(s.(io := io,
                process := if Overfull(p, Bound(stream), data) || io.ioFailed then Kill(s.process) else s.process))
    case PipeClosed(stream) =>
      var p := PipeOf(s.io, stream);
      if p.readers == 0 || p.eof then None else Some(s.(io := WithPipe(s.io, stream, p.(eof := true))))
    case ChildExited(code) =>
      if s.process.spawn != Born || s.process.returncode.Some? then None
      else Some(s.(process := s.process.(returncode := Some(code))))
    case _ => None
  }

  /** Syncing and closing the captures, then publishing. */
  function PublishStep(s: State, e: Event): Option<State> {
    match e
    case Synced(ok) =>
      if s.pc != Syncing then None
      else Some(s.(handlesOpen := false, pc := if ok && s.verdict.accepted then PublishArtifact else PublishStatus))
    case ArtifactWritten(ok) =>
      if s.pc != PublishArtifact then None
      else if ok then
        Some(s.(verdict := s.verdict.(artifact := Some(s.io.out.buffer), complete := true), pc := PublishStatus))
      else Some(s.(pc := PublishStatus))
    case StatusWritten(ok) =>
      if s.pc != PublishStatus then None
      else Some(s.(verdict := if ok then s.verdict.(status := Some(Snapshot(s)))
                              else s.verdict.(statusFailed := true),
                   pc := Finished))
    case _ => None
  }

  /** The state after an event, or None when the event cannot happen there. */
  function Step(s: State, e: Event, parses: Text -> bool): Option<State> {
    match e
    case HandlesOpened | HandlesFailed | SpawnReturned(_) => LaunchStep(s, e)
    case Chunk(_, _, _) | PipeClosed(_) | ChildExited(_) => ChildStep(s, e)
    case CleanupResumed => Cleanup(s)
    case Synced(_) | ArtifactWritten(_) | StatusWritten(_) => PublishStep(s, e)
    case _ => MainStep(s, e, parses)
  }

  function Run(s: State, events: seq<Event>, parses: Text -> bool): Option<State>
    decreases |events|
  {
    if events == [] then Some(s)
    else
      var next :- Step(s, events[0], parses);
      Run(next, events[1..], parses)
  }

  // ----- what every step keeps -----

  /** A drain keeps a bounded prefix of what it read; its file is a prefix of that. */
  predicate PipeOk(p: Pipe, bound: nat, ioFailed: bool) {
    && p.buffer == p.read[..Min(|p.read|, bound + 1)]
    && p.file <= p.buffer
    && (!ioFailed ==> p.file == p.buffer)
    && p.reported == |p.buffer|
  }

  predicate Captures(io: Io) {
    && PipeOk(io.out, MAX_ARTIFACT, io.ioFailed) && PipeOk(io.err, STDERR_BOUND, io.ioFailed)
    && (io.overflow <==> |io.out.read| > MAX_ARTIFACT || |io.err.read| > STDERR_BOUND)
  }

  /** Each pipe has one reader once the process is bound, and none before. */
  predicate Readers(s: State) {
    var n := if s.process.known then 1 else 0;
    && s.io.out.readers == n && s.io.err.readers == n
    && (!s.process.known ==> s.io == Io(FRESH, FRESH, false, false))
    && (s.process.known || s.process.returncode.Some? ==> s.process.spawn == Born)
    && (s.io.overflow || s.io.ioFailed ==> s.process.killed || s.process.returncode.Some?)
  }

  /** The process is known, both its readers ended and its exit was collected. */
  predicate Joined(s: State) {
    s.process.known && Ended(s.io) && s.process.returncode.Some?
  }

  predicate Settled(s: State) {
    && !s.handlesOpen
    && (s.process.spawn == Unrequested || s.process.spawn == Failed
        || (Joined(s) && s.verdict.recorded == s.process.returncode))
  }

  /** Process and handles agree with where the coroutine stands. */
  predicate Placed(s: State) {
    match s.pc
    case Opening => s.process.spawn == Unrequested && !s.handlesOpen && !s.exchange
    case AwaitSpawn => s.process.spawn != Unrequested && s.handlesOpen && !s.process.known && !s.exchange
    case AwaitExchange => s.handlesOpen && s.process.known && s.exchange
    case CleanupStart => s.process.spawn != Unrequested && s.handlesOpen && (s.exchange ==> s.process.known)
    case CleanupJoin => s.handlesOpen && s.process.known && (s.process.killed || s.process.returncode.Some?)
    case CleanupWait => s.handlesOpen && s.process.known && Ended(s.io)
    case CleanupExchange => s.handlesOpen && Joined(s) && s.verdict.recorded == s.process.returncode
    case Syncing => s.handlesOpen && Joined(s) && s.verdict.recorded == s.process.returncode
    case _ => Settled(s)
  }

  /** Everything a complete transfer must have shown. */
  predicate Positive(s: State, parses: Text -> bool) {
    && s.verdict.recorded == s.process.returncode == Some(0) && Joined(s) && !s.verdict.timedOut
    && !s.io.overflow && !s.io.ioFailed && s.io.err.read == []
    && s.io.out.read == s.io.out.buffer && parses(s.io.out.read)
  }

  predicate Deciding(pc: Pc) { pc == Opening || Awaiting(pc) }

  predicate Verdicts(s: State, parses: Text -> bool) {
    var v := s.verdict;
    && (v.accepted ==> Positive(s, parses) && !Deciding(s.pc))
    && (Deciding(s.pc) ==> !v.timedOut && !v.interrupted)
    && (s.pc == Syncing ==> !v.interrupted)
    && (s.pc == PublishArtifact ==> v.accepted && !v.interrupted)
    && (v.complete <==> v.artifact.Some?)
    && (v.complete ==> v.accepted && !v.interrupted && v.artifact == Some(s.io.out.read)
                       && (s.pc == PublishStatus || s.pc == Finished))
    && (s.pc != Finished ==> v.status.None? && !v.statusFailed)
    && (s.pc == Finished ==> v.statusFailed || v.status == Some(Snapshot(s)))
  }

  predicate Invariant(s: State, parses: Text -> bool) {
    Captures(s.io) && Readers(s) && Placed(s) && Verdicts(s, parses)
  }

  /** The buffer stays the bounded prefix of the bytes read, and overfull means too many. */
  lemma DrainKeepsPipe(p: Pipe, bound: nat, data: Text, write: Write, skip: bool)
    requires PipeOk(p, bound, skip) && data != []
    requires write.Wrote? ==> write.n <= |Admitted(p, bound, data)|
    ensures PipeOk(DrainPipe(p, bound, data, write, skip), bound,
                   skip || write.Raised? || write.n != |Admitted(p, bound, data)|)
    ensures Overfull(p, bound, data) <==> |p.read + data| > bound
  {
    var piece := Admitted(p, bound, data);
    if write.Wrote? { assert write.n == |piece| ==> piece[..write.n] == piece; }
  }

  lemma DrainKeepsCaptures(io: Io, stream: Stream, data: Text, write: Write)
    requires Captures(io) && data != []
    requires write.Wrote? ==> write.n <= |Admitted(PipeOf(io, stream), Bound(stream), data)|
    ensures Captures(Drain(io, stream, data, write))
  {
    DrainKeepsPipe(PipeOf(io, stream), Bound(stream), data, write, io.ioFailed);
  }

  lemma LaunchKeeps(s: State, e: Event, parses: Text -> bool)
    requires Invariant(s, parses) && LaunchStep(s, e).Some?
    ensures Invariant(LaunchStep(s, e).value, parses)
  {}

  lemma ExchangeKeeps(s: State, parses: Text -> bool)
    requires Invariant(s, parses) && MainStep(s, ExchangeDone, parses).Some?
    ensures Invariant(MainStep(s, ExchangeDone, parses).value, parses)
  {}

  lemma MainKeeps(s: State, e: Event, parses: Text -> bool)
    requires Invariant(s, parses) && MainStep(s, e, parses).Some?
    ensures Invariant(MainStep(s, e, parses).value, parses)
  {
    if e == ExchangeDone { ExchangeKeeps(s, parses); }
  }

  lemma ChildKeeps(s: State, e: Event, parses: Text -> bool)
    requires Invariant(s, parses) && ChildStep(s, e).Some?
    ensures Invariant(ChildStep(s, e).value, parses)
  {
    if e.Chunk? { DrainKeepsCaptures(s.io, e.stream, e.data, e.write); }
  }

  lemma CleanupStartKeeps(s: State, parses: Text -> bool)
    requires Invariant(s, parses) && s.pc == CleanupStart && Cleanup(s).Some?
    ensures Invariant(Cleanup(s).value, parses)
  {}

  lemma CleanupKeeps(s: State, parses: Text -> bool)
    requires Invariant(s, parses) && Cleanup(s).Some?
    ensures Invariant(Cleanup(s).value, parses)
  {
    if s.pc == CleanupStart { CleanupStartKeeps(s, parses); }
  }

  lemma StatusKeeps(s: State, ok: bool, parses: Text -> bool)
    requires Invariant(s, parses) && PublishStep(s, StatusWritten(ok)).Some?
    ensures Invariant(PublishStep(s, StatusWritten(ok)).value, parses)
  {}

  lemma PublishKeeps(s: State, e: Event, parses: Text -> bool)
    requires Invariant(s, parses) && PublishStep(s, e).Some?
    ensures Invariant(PublishStep(s, e).value, parses)
  {
    if e.StatusWritten? { StatusKeeps(s, e.ok, parses); }
  }

  lemma StepKeeps(s: State, e: Event, parses: Text -> bool)
    requires Invariant(s, parses) && Step(s, e, parses).Some?
    ensures Invariant(Step(s, e, parses).value, parses)
  {
    match e {
      case HandlesOpened | HandlesFailed | SpawnReturned(_) => LaunchKeeps(s, e, parses);
      case Chunk(_, _, _) | PipeClosed(_) | ChildExited(_) => ChildKeeps(s, e, parses);
      case CleanupResumed => CleanupKeeps(s, parses);
      case Synced(_) | ArtifactWritten(_) | StatusWritten(_) => PublishKeeps(s, e, parses);
      case _ => MainKeeps(s, e, parses);
    }
  }

  /** Every run of every interleaving keeps the invariant. */
  lemma {:induction false} RunKeeps(s: State, events: seq<Event>, parses: Text -> bool)
    requires Invariant(s, parses) && Run(s, events, parses).Some?
    ensures Invariant(Run(s, events, parses).value, parses)
    decreases |events|
  {
    if events != [] {
      StepKeeps(s, events[0], parses);
      RunKeeps(Step(s, events[0], parses).value, events[1..], parses);
    }
  }

  // ----- what that means for every run of capture_transfer -----

  /** Whatever the chunks, writes and kills: bounded prefixes, exact overflow, faithful files. */
  lemma BuffersAreBoundedPrefixes(events: seq<Event>, parses: Text -> bool, s: State, stream: Stream)
    requires Run(INITIAL, events, parses) == Some(s)
    ensures var p := PipeOf(s.io, stream);
      && p.buffer <= p.read && |p.buffer| <= Bound(stream) + 1
      && (|p.read| <= Bound(stream) ==> p.buffer == p.read)
      && p.file <= p.buffer && (!s.io.ioFailed ==> p.file == p.buffer)
    ensures s.io.overflow <==> exists q :: |PipeOf(s.io, q).read| > Bound(q)
    ensures s.io.overflow || s.io.ioFailed ==> s.process.killed || s.process.returncode.Some?
  {
    RunKeeps(INITIAL, events, parses);
    assert |PipeOf(s.io, Stdout).read| > Bound(Stdout) <==> |s.io.out.read| > MAX_ARTIFACT;
    assert |PipeOf(s.io, Stderr).read| > Bound(Stderr) <==> |s.io.err.read| > STDERR_BOUND;
  }

  /** One reader a pipe; no reader outlives the handles; closed handles mean a joined child. */
  lemma ReadersJoinBeforeHandlesClose(events: seq<Event>, parses: Text -> bool, s: State, stream: Stream)
    requires Run(INITIAL, events, parses) == Some(s)
    ensures PipeOf(s.io, stream).readers <= 1
    ensures PipeOf(s.io, stream).readers == 1 && !PipeOf(s.io, stream).eof ==> s.handlesOpen
    ensures s.process.spawn == Born && !s.handlesOpen ==>
      PipeOf(s.io, stream).readers == 1 && PipeOf(s.io, stream).eof && s.process.returncode.Some?
    ensures s.pc == CleanupJoin ==> s.process.killed || s.process.returncode.Some?
  {
    RunKeeps(INITIAL, events, parses);
  }

  /** A finished run published its status, and called itself complete only on full evidence. */
  lemma FinishedRunsReport(events: seq<Event>, parses: Text -> bool, s: State)
    requires Run(INITIAL, events, parses) == Some(s)
    ensures s.pc == Finished && !s.verdict.statusFailed ==>
      s.verdict.status.Some? && s.verdict.status.value.complete == s.verdict.complete
    ensures s.verdict.complete ==>
      && s.process.returncode == Some(0) && Ended(s.io) && s.io.err.read == []
      && !s.io.overflow && !s.io.ioFailed && !s.verdict.timedOut && !s.verdict.interrupted
      && s.verdict.artifact == Some(s.io.out.read) && s.io.out.file == s.io.out.read && parses(s.io.out.read)
  {
    RunKeeps(INITIAL, events, parses);
  }

  lemma {:induction false} RunAppend(s: State, a: seq<Event>, b: seq<Event>, parses: Text -> bool)
    requires Run(s, a, parses).Some?
    ensures Run(s, a + b, parses) == Run(Run(s, a, parses).value, b, parses)
    decreases |a|
  {
    if a == [] {
      assert a + b == b;
    } else {
      assert (a + b)[0] == a[0] && (a + b)[1..] == a[1..] + b;
      RunAppend(Step(s, a[0], parses).value, a[1..], b, parses);
    }
  }

  // ----- every run ends -----

  /** An event that somebody imposes on the capture: a cancellation, the timeout, or something that fails. */
  predicate Imposed(e: Event) {
    match e
    case HandlesFailed | TimeoutFired | Cancelled => true
    case SpawnReturned(ok) => !ok
    case Chunk(_, _, write) => write.Raised?
    case Synced(ok) => !ok
    case ArtifactWritten(ok) => !ok
    case StatusWritten(ok) => !ok
    case _ => false
  }

  /** A chunk of output, or a cancellation of a capture that is already interrupted. */
  predicate Idle(s: State, e: Event) { e.Chunk? || (e.Cancelled? && s.verdict.interrupted) }

  function PcRank(pc: Pc): nat {
    match pc
    case Opening => 11
    case AwaitSpawn => 9
    case AwaitExchange => 8
    case CleanupStart => 7
    case CleanupJoin => 6
    case CleanupWait => 5
    case CleanupExchange => 4
    case Syncing => 3
    case PublishArtifact => 2
    case PublishStatus => 1
    case Finished => 0
  }

  function One(b: bool): nat { if b then 1 else 0 }

  /** What is still to happen. */
  function Rank(s: State): nat {
    PcRank(s.pc) + One(s.process.spawn == Unrequested || s.process.spawn == Pending) + One(s.process.returncode.None?)
    + One(!s.io.out.eof) + One(!s.io.err.eof) + One(!s.verdict.interrupted)
  }

  lemma DrainKeepsEofs(io: Io, stream: Stream, data: Text, write: Write)
    requires write.Wrote? ==> write.n <= |Admitted(PipeOf(io, stream), Bound(stream), data)|
    ensures var r := Drain(io, stream, data, write); r.out.eof == io.out.eof && r.err.eof == io.err.eof
  {}

  lemma ChildLowersRank(s: State, e: Event)
    requires ChildStep(s, e).Some?
    ensures Rank(ChildStep(s, e).value) + One(!Idle(s, e)) <= Rank(s)
  {
    if e.Chunk? { DrainKeepsEofs(s.io, e.stream, e.data, e.write); }
  }

  lemma CoroutineLowersRank(s: State, e: Event, parses: Text -> bool)
    requires MainStep(s, e, parses).Some?
    ensures Rank(MainStep(s, e, parses).value) + One(!Idle(s, e)) <= Rank(s)
  {}

  /** The cleanup only moves on: it changes no launch, exit or pipe, and interrupts nothing. */
  lemma CleanupMovesOn(s: State)
    requires Cleanup(s).Some?
    ensures var n := Cleanup(s).value;
      && PcRank(n.pc) < PcRank(s.pc) && n.process.spawn == s.process.spawn
      && n.process.returncode == s.process.returncode && n.verdict.interrupted == s.verdict.interrupted
      && n.io.out.eof == s.io.out.eof && n.io.err.eof == s.io.err.eof
  {}

  lemma RankCompared(s: State, n: State)
    requires PcRank(n.pc) < PcRank(s.pc) && n.process.spawn == s.process.spawn
    requires n.process.returncode == s.process.returncode && n.verdict.interrupted == s.verdict.interrupted
    requires n.io.out.eof == s.io.out.eof && n.io.err.eof == s.io.err.eof
    ensures Rank(n) < Rank(s)
  {}

  lemma CleanupLowersRank(s: State)
    requires Cleanup(s).Some?
    ensures Rank(Cleanup(s).value) < Rank(s)
  {
    CleanupMovesOn(s);
    RankCompared(s, Cleanup(s).value);
  }

  /** Nothing ever adds to what is still to happen, and only idle events take nothing from it. */
  lemma StepLowersRank(s: State, e: Event, parses: Text -> bool)
    requires Step(s, e, parses).Some?
    ensures Rank(Step(s, e, parses).value) + One(!Idle(s, e)) <= Rank(s)
  {
    match e {
      case HandlesOpened | HandlesFailed | SpawnReturned(_) => assert Step(s, e, parses) == LaunchStep(s, e);
      case Chunk(_, _, _) | PipeClosed(_) | ChildExited(_) => ChildLowersRank(s, e);
      case CleanupResumed => CleanupLowersRank(s);
      case Synced(_) | ArtifactWritten(_) | StatusWritten(_) => assert Step(s, e, parses) == PublishStep(s, e);
      case _ => CoroutineLowersRank(s, e, parses);
    }
  }

  /** The events of a run that are not idle. */
  function Telling(s: State, events: seq<Event>, parses: Text -> bool): nat
    requires Run(s, events, parses).Some?
    decreases |events|
  {
    if events == [] then 0
    else One(!Idle(s, events[0])) + Telling(Step(s, events[0], parses).value, events[1..], parses)
  }

  lemma {:induction false} TellingWithinRank(s: State, events: seq<Event>, parses: Text -> bool)
    requires Run(s, events, parses).Some?
    ensures Telling(s, events, parses) + Rank(Run(s, events, parses).value) <= Rank(s)
    decreases |events|
  {
    if events != [] {
      StepLowersRank(s, events[0], parses);
      TellingWithinRank(Step(s, events[0], parses).value, events[1..], parses);
    }
  }

  /** Whatever the interleaving, at most sixteen events besides chunks and repeated cancellations. */
  lemma RunsAreBounded(events: seq<Event>, parses: Text -> bool, s: State)
    requires Run(INITIAL, events, parses) == Some(s)
    ensures Telling(INITIAL, events, parses) <= 16 - PcRank(s.pc)
  {
    TellingWithinRank(INITIAL, events, parses);
    RankLeft(s);
  }

  /** The rank of a state holds at least the rank of its place. */
  lemma RankLeft(s: State)
    ensures PcRank(s.pc) <= Rank(s) && Rank(INITIAL) == 16
  {}

  /** The next thing that happens when nobody interferes, the child's pipes close and it exits. */
  function Next(s: State): Event {
    match s.pc
    case Opening => HandlesOpened
    case AwaitSpawn =>
      if s.process.spawn == Pending then SpawnReturned(true)
      else if s.process.spawn == Born then ProcessReceived else SpawnRaised
    case AwaitExchange =>
      if !s.io.out.eof then PipeClosed(Stdout) else if !s.io.err.eof then PipeClosed(Stderr)
      else if s.process.returncode.None? then ChildExited(0) else ExchangeDone
    case CleanupStart => if s.process.spawn == Pending then SpawnReturned(true) else CleanupResumed
    case CleanupJoin =>
      if !s.io.out.eof then PipeClosed(Stdout) else if !s.io.err.eof then PipeClosed(Stderr) else CleanupResumed
    case CleanupWait => if s.process.returncode.None? then ChildExited(0) else CleanupResumed
    case CleanupExchange => CleanupResumed
    case Syncing => Synced(true)
    case PublishArtifact => ArtifactWritten(true)
    case _ => StatusWritten(true)
  }

  lemma NextIsEnabled(s: State, parses: Text -> bool)
    requires Invariant(s, parses) && s.pc != Finished
    ensures Step(s, Next(s), parses).Some? && !Imposed(Next(s)) && !Idle(s, Next(s))
  {}

  /** Every reachable state but the last goes on by itself: no cancellation, timeout or failure is needed. */
  lemma ReachableGoesOn(events: seq<Event>, parses: Text -> bool, s: State)
    requires Run(INITIAL, events, parses) == Some(s) && s.pc != Finished
    ensures exists e :: Step(s, e, parses).Some? && !Imposed(e) && !Idle(s, e)
  {
    RunKeeps(INITIAL, events, parses);
    NextIsEnabled(s, parses);
  }

  ghost predicate NoneImposed(events: seq<Event>) {
    forall i | 0 <= i < |events| :: !Imposed(events[i])
  }

  lemma {:induction false} NeverStuck(s: State, parses: Text -> bool) returns (events: seq<Event>)
    requires Invariant(s, parses)
    ensures Run(s, events, parses).Some? && Run(s, events, parses).value.pc == Finished && NoneImposed(events)
    decreases Rank(s)
  {
    if s.pc == Finished {
      events := [];
    } else {
      NextIsEnabled(s, parses);
      StepLowersRank(s, Next(s), parses);
      var next := Step(s, Next(s), parses).value;
      StepKeeps(s, Next(s), parses);
      assert Run(s, [Next(s)], parses) == Some(next) by { assert [Next(s)][1..] == []; }
      var rest := NeverStuck(next, parses);
      events := [Next(s)] + rest;
      RunAppend(s, [Next(s)], rest, parses);
    }
  }

  /** From every reachable state the run finishes without a further cancellation, timeout or failure. */
  lemma ReachableCanFinish(events: seq<Event>, parses: Text -> bool, s: State)
    requires Run(INITIAL, events, parses) == Some(s)
    ensures exists more :: NoneImposed(more) && Run(INITIAL, events + more, parses).Some?
                           && Run(INITIAL, events + more, parses).value.pc == Finished
  {
    RunKeeps(INITIAL, events, parses);
    var more := NeverStuck(s, parses);
    RunAppend(INITIAL, events, more, parses);
  }

  // ----- a child that writes the artifact and exits is received whole -----

  /** The artifact delivered in reads of the drain's size, every write taking all of it. */
  function Delivery(data: Text): seq<Event>
    decreases |data|
  {
    if data == [] then []
    else
      var n := Min(READ_SIZE, |data|);
      [Chunk(Stdout, data[..n], Wrote(n))] + Delivery(data[n..])
  }

  function Received(s: State, data: Text): State {
    var p := s.io.out;
    s.(io := s.io.(out := p.(read := p.read + data, buffer := p.buffer + data, file := p.file + data,
                             reported := |p.buffer + data|)))
  }

  lemma ChunkReceived(s: State, head: Text, parses: Text -> bool)
    requires s.io.out.readers == 1 && !s.io.out.eof && !s.io.ioFailed && !s.io.overflow
    requires |s.io.out.buffer| + |head| <= MAX_ARTIFACT && 1 <= |head| <= READ_SIZE
    ensures Step(s, Chunk(Stdout, head, Wrote(|head|)), parses) == Some(Received(s, head))
  {
    var p := s.io.out;
    assert Admitted(p, MAX_ARTIFACT, head) == head && head[..|head|] == head;
  }

  lemma {:induction false} DeliveryReceived(s: State, data: Text, parses: Text -> bool)
    requires s.io.out.readers == 1 && !s.io.out.eof && !s.io.ioFailed && !s.io.overflow
    requires |s.io.out.buffer| + |data| <= MAX_ARTIFACT
    requires s.io.out.reported == |s.io.out.buffer|
    ensures Run(s, Delivery(data), parses) == Some(Received(s, data))
    decreases |data|
  {
    if data == [] {
      assert s.io.out.read + data == s.io.out.read && s.io.out.buffer + data == s.io.out.buffer;
      assert s.io.out.file + data == s.io.out.file;
    } else {
      var n := Min(READ_SIZE, |data|);
      var head, tail := data[..n], data[n..];
      ChunkReceived(s, head, parses);
      DeliveryReceived(Received(s, head), tail, parses);
      ReceivedTwice(s, head, tail);
      assert data == head + tail && Delivery(data)[1..] == Delivery(tail);
    }
  }

  lemma ReceivedTwice(s: State, head: Text, tail: Text)
    ensures Received(Received(s, head), tail) == Received(s, head + tail)
  {
    var p := s.io.out;
    assert p.read + head + tail == p.read + (head + tail) && p.buffer + head + tail == p.buffer + (head + tail);
    assert p.file + head + tail == p.file + (head + tail);
  }

  lemma Then(s: State, done: seq<Event>, mid: State, e: Event, next: State, parses: Text -> bool)
    requires Run(s, done, parses) == Some(mid) && Step(mid, e, parses) == Some(next)
    ensures Run(s, done + [e], parses) == Some(next)
  {
    RunAppend(s, done, [e], parses);
    assert [e][1..] == [];
  }

  /** The run in which the child is launched and its pipes get their readers. */
  lemma Launched(parses: Text -> bool) returns (events: seq<Event>, s: State)
    ensures Run(INITIAL, events, parses) == Some(s)
    ensures s == State(AwaitExchange, Process(Born, true, None, false),
                       Io(FRESH.(readers := 1), FRESH.(readers := 1), false, false), true, true, INITIAL.verdict)
  {
    var s1 := Step(INITIAL, HandlesOpened, parses).value;
    var s2 := Step(s1, SpawnReturned(true), parses).value;
    s := Step(s2, ProcessReceived, parses).value;
    Then(INITIAL, [], INITIAL, HandlesOpened, s1, parses);
    Then(INITIAL, [] + [HandlesOpened], s1, SpawnReturned(true), s2, parses);
    Then(INITIAL, [] + [HandlesOpened] + [SpawnReturned(true)], s2, ProcessReceived, s, parses);
    events := [] + [HandlesOpened] + [SpawnReturned(true)] + [ProcessReceived];
  }

  /** The child closes its pipes and exits 0. */
  lemma ChildDone(before: seq<Event>, s: State, parses: Text -> bool) returns (events: seq<Event>, end: State)
    requires Run(INITIAL, before, parses) == Some(s)
    requires s.process == Process(Born, true, None, false) && s.io.out.readers == s.io.err.readers == 1
    requires !s.io.out.eof && !s.io.err.eof
    ensures Run(INITIAL, events, parses) == Some(end)
    ensures end == s.(io := s.io.(out := s.io.out.(eof := true), err := s.io.err.(eof := true)),
                      process := Process(Born, true, Some(0), false))
  {
    var s1 := Step(s, PipeClosed(Stdout), parses).value;
    var s2 := Step(s1, PipeClosed(Stderr), parses).value;
    end := Step(s2, ChildExited(0), parses).value;
    Then(INITIAL, before, s, PipeClosed(Stdout), s1, parses);
    Then(INITIAL, before + [PipeClosed(Stdout)], s1, PipeClosed(Stderr), s2, parses);
    Then(INITIAL, before + [PipeClosed(Stdout)] + [PipeClosed(Stderr)], s2, ChildExited(0), end, parses);
    events := before + [PipeClosed(Stdout)] + [PipeClosed(Stderr)] + [ChildExited(0)];
  }

  /** A good exchange goes through the cleanup task. */
  lemma Collected(before: seq<Event>, s: State, parses: Text -> bool) returns (events: seq<Event>, end: State)
    requires Run(INITIAL, before, parses) == Some(s)
    requires s.pc == AwaitExchange && Judged(s, parses) && s.process.known && s.io.out.readers == 1
    requires s.verdict == INITIAL.verdict
    ensures Run(INITIAL, events, parses) == Some(end)
    ensures end == s.(pc := Syncing, verdict := s.verdict.(recorded := Some(0), accepted := true))
  {
    var s1 := Step(s, ExchangeDone, parses).value;
    var s2 := Step(s1, CleanupResumed, parses).value;
    var s3 := Step(s2, CleanupResumed, parses).value;
    var s4 := Step(s3, CleanupResumed, parses).value;
    end := Step(s4, CleanupResumed, parses).value;
    var e := before + [ExchangeDone];
    Then(INITIAL, before, s, ExchangeDone, s1, parses);
    Then(INITIAL, e, s1, CleanupResumed, s2, parses);
    Then(INITIAL, e + [CleanupResumed], s2, CleanupResumed, s3, parses);
    Then(INITIAL, e + [CleanupResumed] + [CleanupResumed], s3, CleanupResumed, s4, parses);
    Then(INITIAL, e + [CleanupResumed] + [CleanupResumed] + [CleanupResumed], s4, CleanupResumed, end, parses);
    events := e + [CleanupResumed] + [CleanupResumed] + [CleanupResumed] + [CleanupResumed];
  }

  lemma Published(before: seq<Event>, s: State, parses: Text -> bool) returns (events: seq<Event>, end: State)
    requires Run(INITIAL, before, parses) == Some(s)
    requires s.pc == Syncing && s.verdict.accepted
    ensures Run(INITIAL, events, parses) == Some(end)
    ensures end.pc == Finished && end.verdict.artifact == Some(s.io.out.buffer)
  {
    var s1 := Step(s, Synced(true), parses).value;
    var s2 := Step(s1, ArtifactWritten(true), parses).value;
    end := Step(s2, StatusWritten(true), parses).value;
    Then(INITIAL, before, s, Synced(true), s1, parses);
    Then(INITIAL, before + [Synced(true)], s1, ArtifactWritten(true), s2, parses);
    Then(INITIAL, before + [Synced(true)] + [ArtifactWritten(true)], s2, StatusWritten(true), end, parses);
    events := before + [Synced(true)] + [ArtifactWritten(true)] + [StatusWritten(true)];
  }

  /** Every parseable document within the bound can be captured whole. */
  lemma WholeArtifactCompletes(data: Text, parses: Text -> bool) returns (events: seq<Event>)
    requires |data| <= MAX_ARTIFACT && parses(data)
    ensures Run(INITIAL, events, parses).Some?
    ensures var end := Run(INITIAL, events, parses).value;
      end.pc == Finished && end.verdict.artifact == Some(data) && end.verdict.complete
  {
    var launch, s1 := Launched(parses);
    DeliveryReceived(s1, data, parses);
    RunAppend(INITIAL, launch, Delivery(data), parses);
    var s2 := Received(s1, data);
    assert [] + data == data;
    var ended, s3 := ChildDone(launch + Delivery(data), s2, parses);
    var judged, s4 := Collected(ended, s3, parses);
    var all, s5 := Published(judged, s4, parses);
    RunKeeps(INITIAL, all, parses);
    events := all;
  }

  /** What a complete capture published is a document the exporter emits for its commit and vector. */
  lemma CompleteCaptureIsCanonical(events: seq<Event>, pins: Pins, w: World, s: State)
    requires Run(INITIAL, events, raw => ParseArtifact(raw, pins, w).Ok?) == Some(s) && s.verdict.complete
    ensures exists commit, vector | IsBytes(commit) && IsBytes(vector) ::
      ArtifactBytes(commit, vector, pins, w) == Ok(s.io.out.read) && s.verdict.artifact == Some(s.io.out.read)
  {
    FinishedRunsReport(events, raw => ParseArtifact(raw, pins, w).Ok?, s);
    var (commit, vector) := ParseArtifact(s.io.out.read, pins, w).value;
    ParsedIsEmitted(s.io.out.read, commit, vector, pins, w);
  }
}
