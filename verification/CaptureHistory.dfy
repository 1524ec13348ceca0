/** What a capture publishes, read off the events of its run alone (scripts/m8_candidate_transfer.py). */
module CaptureHistory {
  import opened Texts
  import opened Wrappers
  import opened CaptureTransfer

  /** The bytes that came through a pipe, in order. */
  function Sent(events: seq<Event>, stream: Stream): Text {
    if events == [] then []
    else
      var last := events[|events| - 1];
      Sent(events[..|events| - 1], stream) + (if last.Chunk? && last.stream == stream then last.data else [])
  }

  function Limit(stream: Stream): nat { if stream == Stdout then 81920 else 1024 }

  /** How much of the chunk at i the buffer had room for: one byte more than the limit in all. */
  function Fits(events: seq<Event>, i: nat): nat
    requires i < |events| && events[i].Chunk?
  {
    var room := Limit(events[i].stream) + 1 - |Sent(events[..i], events[i].stream)|;
    if room < 0 then 0 else if room < |events[i].data| then room else |events[i].data|
  }

  /** The write of the chunk at i raised or took less than it was given. */
  predicate ShortWrite(events: seq<Event>, i: nat)
    requires i < |events|
  {
    events[i].Chunk? && (events[i].write.Raised? || events[i].write.n != Fits(events, i))
  }

  predicate SomeShort(events: seq<Event>) { exists i | 0 <= i < |events| :: ShortWrite(events, i) }

  predicate TooMuch(events: seq<Event>) { |Sent(events, Stdout)| > 81920 || |Sent(events, Stderr)| > 1024 }

  /** What was written of it: the part of each chunk that the write took, until one took less than it was given. */
  function Kept(events: seq<Event>, stream: Stream): Text {
    if events == [] then []
    else
      var init, last := events[..|events| - 1], events[|events| - 1];
      Kept(init, stream)
      + (if last.Chunk? && last.stream == stream && !SomeShort(init) && last.write.Wrote? && last.write.n <= |last.data|
         then last.data[..last.write.n] else [])
  }

  // ----- the pipes -----

  ghost predicate PipesTold(events: seq<Event>, io: Io) {
    && io.out.file == Kept(events, Stdout) && io.err.file == Kept(events, Stderr)
    && io.out.read == Sent(events, Stdout) && io.err.read == Sent(events, Stderr)
    && (io.out.eof <==> PipeClosed(Stdout) in events) && (io.err.eof <==> PipeClosed(Stderr) in events)
    && (io.ioFailed <==> SomeShort(events))
  }

  lemma SentMore(events: seq<Event>, e: Event, stream: Stream)
    ensures Sent(events + [e], stream) == Sent(events, stream) + (if e.Chunk? && e.stream == stream then e.data else [])
  {
    assert (events + [e])[..|events|] == events;
  }

  lemma KeptMore(events: seq<Event>, e: Event, stream: Stream)
    ensures Kept(events + [e], stream) == Kept(events, stream)
      + (if e.Chunk? && e.stream == stream && !SomeShort(events) && e.write.Wrote? && e.write.n <= |e.data|
         then e.data[..e.write.n] else [])
  {
    assert (events + [e])[..|events|] == events;
  }

  lemma FitsSame(events: seq<Event>, e: Event, i: nat)
    requires i < |events| && events[i].Chunk?
    ensures Fits(events + [e], i) == Fits(events, i)
  {
    assert (events + [e])[..i] == events[..i];
  }

  lemma ShortMore(events: seq<Event>, e: Event)
    ensures SomeShort(events + [e]) <==> SomeShort(events) || ShortWrite(events + [e], |events|)
  {
    var more := events + [e];
    if SomeShort(events) {
      var i :| 0 <= i < |events| && ShortWrite(events, i);
      FitsSame(events, e, i);
      assert ShortWrite(more, i);
    }
    if SomeShort(more) {
      var i :| 0 <= i < |more| && ShortWrite(more, i);
      if i < |events| {
        FitsSame(events, e, i);
        assert ShortWrite(events, i);
      }
    }
  }

  /** What fits is what the buffer admits. */
  lemma FitsIsAdmitted(events: seq<Event>, e: Event, io: Io)
    requires e.Chunk? && PipesTold(events, io) && Captures(io)
    ensures Fits(events + [e], |events|) == |Admitted(PipeOf(io, e.stream), Bound(e.stream), e.data)|
  {
    assert (events + [e])[..|events|] == events;
  }

  lemma ChunkTold(events: seq<Event>, e: Event, io: Io)
    requires e.Chunk? && PipesTold(events, io) && Captures(io)
    requires e.write.Wrote? ==> e.write.n <= |Admitted(PipeOf(io, e.stream), Bound(e.stream), e.data)|
    ensures PipesTold(events + [e], Drain(io, e.stream, e.data, e.write))
  {
    SentMore(events, e, Stdout);
    SentMore(events, e, Stderr);
    KeptMore(events, e, Stdout);
    KeptMore(events, e, Stderr);
    ShortMore(events, e);
    FitsIsAdmitted(events, e, io);
  }

  lemma ClosedTold(events: seq<Event>, stream: Stream, io: Io)
    requires PipesTold(events, io)
    ensures PipesTold(events + [PipeClosed(stream)], WithPipe(io, stream, PipeOf(io, stream).(eof := true)))
  {
    SentMore(events, PipeClosed(stream), Stdout);
    SentMore(events, PipeClosed(stream), Stderr);
    KeptMore(events, PipeClosed(stream), Stdout);
    KeptMore(events, PipeClosed(stream), Stderr);
    ShortMore(events, PipeClosed(stream));
  }

  /** Any other event, and the start of the readers, leaves what has been told of the pipes. */
  lemma OtherTold(events: seq<Event>, e: Event, io: Io)
    requires PipesTold(events, io) && !e.Chunk? && !e.PipeClosed?
    ensures PipesTold(events + [e], io) && PipesTold(events + [e], Enrol(io))
  {
    SentMore(events, e, Stdout);
    SentMore(events, e, Stderr);
    KeptMore(events, e, Stdout);
    KeptMore(events, e, Stderr);
    ShortMore(events, e);
  }

  lemma PipesStep(events: seq<Event>, e: Event, s: State, n: State, parses: Text -> bool)
    requires PipesTold(events, s.io) && Captures(s.io) && Step(s, e, parses) == Some(n)
    ensures PipesTold(events + [e], n.io)
  {
    if e.Chunk? { ChunkTold(events, e, s.io); }
    else if e.PipeClosed? { ClosedTold(events, e.stream, s.io); }
    else { OtherTold(events, e, s.io); }
  }

  // ----- the process and the verdict -----

  /** What the other fields say of the events. */
  ghost predicate RestTold(events: seq<Event>, s: State) {
    && (forall c :: s.process.returncode == Some(c) <==> ChildExited(c) in events)
    && (s.process.spawn != Unrequested <==> HandlesOpened in events)
    && (s.verdict.timedOut <==> TimeoutFired in events)
    && (s.verdict.complete <==> ArtifactWritten(true) in events)
    && (s.verdict.statusFailed <==> StatusWritten(false) in events)
    && (s.verdict.status.Some? <==> StatusWritten(true) in events)
    && (s.pc == Finished ==> (s.verdict.status.Some? <==> !s.verdict.statusFailed))
  }

  lemma MemberMore(events: seq<Event>, e: Event)
    ensures forall x :: x in events + [e] <==> x in events || x == e
  {}

  lemma LaunchRest(events: seq<Event>, e: Event, s: State, n: State, parses: Text -> bool)
    requires RestTold(events, s) && Invariant(s, parses) && LaunchStep(s, e) == Some(n)
    ensures RestTold(events + [e], n)
  {
    MemberMore(events, e);
  }

  lemma ChildRest(events: seq<Event>, e: Event, s: State, n: State, parses: Text -> bool)
    requires RestTold(events, s) && Invariant(s, parses) && ChildStep(s, e) == Some(n)
    ensures RestTold(events + [e], n)
  {
    MemberMore(events, e);
  }

  lemma CleanupRest(events: seq<Event>, s: State, n: State)
    requires RestTold(events, s) && Cleanup(s) == Some(n)
    ensures RestTold(events + [CleanupResumed], n)
  {
    MemberMore(events, CleanupResumed);
  }

  lemma PublishRest(events: seq<Event>, e: Event, s: State, n: State, parses: Text -> bool)
    requires RestTold(events, s) && Invariant(s, parses) && PublishStep(s, e) == Some(n)
    ensures RestTold(events + [e], n)
  {
    MemberMore(events, e);
  }

  lemma MainRest(events: seq<Event>, e: Event, s: State, n: State, parses: Text -> bool)
    requires RestTold(events, s) && Invariant(s, parses) && MainStep(s, e, parses) == Some(n)
    ensures RestTold(events + [e], n)
  {
    MemberMore(events, e);
  }

  lemma RestStep(events: seq<Event>, e: Event, s: State, n: State, parses: Text -> bool)
    requires RestTold(events, s) && Invariant(s, parses) && Step(s, e, parses) == Some(n)
    ensures RestTold(events + [e], n)
  {
    match e {
      case HandlesOpened | HandlesFailed | SpawnReturned(_) => LaunchRest(events, e, s, n, parses);
      case Chunk(_, _, _) | PipeClosed(_) | ChildExited(_) => ChildRest(events, e, s, n, parses);
      case CleanupResumed => CleanupRest(events, s, n);
      case Synced(_) | ArtifactWritten(_) | StatusWritten(_) => PublishRest(events, e, s, n, parses);
      case _ => MainRest(events, e, s, n, parses);
    }
  }

  // ----- how the exchange was judged and published -----

  predicate Publishing(pc: Pc) { pc == PublishStatus || pc == Finished }

  /** What a finished exchange was judged by; nothing can change it afterwards. */
  predicate Evidence(s: State, parses: Text -> bool) {
    && s.process.returncode == Some(0) && !s.io.overflow && !s.io.ioFailed
    && s.io.err.buffer == [] && parses(s.io.out.buffer)
  }

  ghost predicate JudgedTold(events: seq<Event>, s: State, parses: Text -> bool) {
    && (Deciding(s.pc) ==> Cancelled !in events && ExchangeDone !in events)
    && (ExchangeDone in events ==> Ended(s.io) && s.process.returncode.Some? && (s.verdict.interrupted <==> Cancelled in events))
    && (s.verdict.accepted <==> ExchangeDone in events && Evidence(s, parses))
    && (s.verdict.recorded.Some? ==> s.verdict.recorded == s.process.returncode)
  }

  ghost predicate PublishedTold(events: seq<Event>, s: State) {
    && (Synced(true) in events || Synced(false) in events ==> s.pc == PublishArtifact || Publishing(s.pc))
    && (ArtifactWritten(true) in events || ArtifactWritten(false) in events ==> Publishing(s.pc))
    && (Synced(false) in events ==> !s.verdict.complete && s.pc != PublishArtifact)
    && (ArtifactWritten(false) in events ==> !s.verdict.complete)
    && (Publishing(s.pc) && s.verdict.accepted && !s.verdict.interrupted ==>
          s.verdict.complete || Synced(false) in events || ArtifactWritten(false) in events)
  }

  lemma LaunchJudged(events: seq<Event>, e: Event, s: State, n: State, parses: Text -> bool)
    requires JudgedTold(events, s, parses) && Invariant(s, parses) && LaunchStep(s, e) == Some(n)
    ensures JudgedTold(events + [e], n, parses)
  {
    MemberMore(events, e);
  }

  lemma ChildJudged(events: seq<Event>, e: Event, s: State, n: State, parses: Text -> bool)
    requires JudgedTold(events, s, parses) && Invariant(s, parses) && ChildStep(s, e) == Some(n)
    ensures JudgedTold(events + [e], n, parses)
  {
    MemberMore(events, e);
  }

  lemma CleanupJudged(events: seq<Event>, s: State, n: State, parses: Text -> bool)
    requires JudgedTold(events, s, parses) && Invariant(s, parses) && Cleanup(s) == Some(n)
    ensures JudgedTold(events + [CleanupResumed], n, parses)
  {
    MemberMore(events, CleanupResumed);
  }

  lemma PublishJudged(events: seq<Event>, e: Event, s: State, n: State, parses: Text -> bool)
    requires JudgedTold(events, s, parses) && Invariant(s, parses) && PublishStep(s, e) == Some(n)
    ensures JudgedTold(events + [e], n, parses)
  {
    MemberMore(events, e);
  }

  lemma MainJudged(events: seq<Event>, e: Event, s: State, n: State, parses: Text -> bool)
    requires JudgedTold(events, s, parses) && Invariant(s, parses) && MainStep(s, e, parses) == Some(n)
    ensures JudgedTold(events + [e], n, parses)
  {
    MemberMore(events, e);
  }

  lemma JudgedStep(events: seq<Event>, e: Event, s: State, n: State, parses: Text -> bool)
    requires JudgedTold(events, s, parses) && Invariant(s, parses) && Step(s, e, parses) == Some(n)
    ensures JudgedTold(events + [e], n, parses)
  {
    match e {
      case HandlesOpened | HandlesFailed | SpawnReturned(_) => LaunchJudged(events, e, s, n, parses);
      case Chunk(_, _, _) | PipeClosed(_) | ChildExited(_) => ChildJudged(events, e, s, n, parses);
      case CleanupResumed => CleanupJudged(events, s, n, parses);
      case Synced(_) | ArtifactWritten(_) | StatusWritten(_) => PublishJudged(events, e, s, n, parses);
      case _ => MainJudged(events, e, s, n, parses);
    }
  }

  lemma PublishPublished(events: seq<Event>, e: Event, s: State, n: State, parses: Text -> bool)
    requires PublishedTold(events, s) && Invariant(s, parses) && PublishStep(s, e) == Some(n)
    ensures PublishedTold(events + [e], n)
  {
    MemberMore(events, e);
  }

  lemma LaunchPublished(events: seq<Event>, e: Event, s: State, n: State, parses: Text -> bool)
    requires PublishedTold(events, s) && Invariant(s, parses) && LaunchStep(s, e) == Some(n)
    requires !e.Synced? && !e.ArtifactWritten?
    ensures PublishedTold(events + [e], n)
  {
    MemberMore(events, e);
  }

  lemma ChildPublished(events: seq<Event>, e: Event, s: State, n: State, parses: Text -> bool)
    requires PublishedTold(events, s) && Invariant(s, parses) && ChildStep(s, e) == Some(n)
    requires !e.Synced? && !e.ArtifactWritten?
    ensures PublishedTold(events + [e], n)
  {
    MemberMore(events, e);
  }

  lemma MainPublished(events: seq<Event>, e: Event, s: State, n: State, parses: Text -> bool)
    requires PublishedTold(events, s) && Invariant(s, parses) && MainStep(s, e, parses) == Some(n)
    requires !e.Synced? && !e.ArtifactWritten?
    ensures PublishedTold(events + [e], n)
  {
    MemberMore(events, e);
  }

  lemma CleanupPublished(events: seq<Event>, s: State, n: State, parses: Text -> bool)
    requires PublishedTold(events, s) && Invariant(s, parses) && Cleanup(s) == Some(n)
    ensures PublishedTold(events + [CleanupResumed], n)
  {
    MemberMore(events, CleanupResumed);
  }

  lemma PublishedStep(events: seq<Event>, e: Event, s: State, n: State, parses: Text -> bool)
    requires PublishedTold(events, s) && Invariant(s, parses) && Step(s, e, parses) == Some(n)
    ensures PublishedTold(events + [e], n)
  {
    match e {
      case HandlesOpened | HandlesFailed | SpawnReturned(_) => LaunchPublished(events, e, s, n, parses);
      case Chunk(_, _, _) | PipeClosed(_) | ChildExited(_) => ChildPublished(events, e, s, n, parses);
      case CleanupResumed => CleanupPublished(events, s, n, parses);
      case Synced(_) | ArtifactWritten(_) | StatusWritten(_) => PublishPublished(events, e, s, n, parses);
      case _ => MainPublished(events, e, s, n, parses);
    }
  }

  // ----- who killed the child -----

  /** A kill has its reason, and a child that is there when cleanup begins is killed or has ended. */
  ghost predicate KillTold(events: seq<Event>, s: State) {
    && (s.process.killed ==> s.io.overflow || s.io.ioFailed || CleanupResumed in events)
    && (s.process.spawn == Born <==> SpawnReturned(true) in events)
    && (CleanupResumed in events ==>
          s.process.spawn == Failed || (s.process.spawn == Born && (s.process.killed || s.process.returncode.Some?)))
  }

  lemma LaunchKill(events: seq<Event>, e: Event, s: State, n: State, parses: Text -> bool)
    requires KillTold(events, s) && Invariant(s, parses) && LaunchStep(s, e) == Some(n)
    ensures KillTold(events + [e], n)
  {
    MemberMore(events, e);
  }

  lemma ChildKill(events: seq<Event>, e: Event, s: State, n: State, parses: Text -> bool)
    requires KillTold(events, s) && Invariant(s, parses) && ChildStep(s, e) == Some(n)
    ensures KillTold(events + [e], n)
  {
    MemberMore(events, e);
  }

  lemma PublishKill(events: seq<Event>, e: Event, s: State, n: State, parses: Text -> bool)
    requires KillTold(events, s) && Invariant(s, parses) && PublishStep(s, e) == Some(n)
    ensures KillTold(events + [e], n)
  {
    MemberMore(events, e);
  }

  lemma MainKill(events: seq<Event>, e: Event, s: State, n: State, parses: Text -> bool)
    requires KillTold(events, s) && Invariant(s, parses) && MainStep(s, e, parses) == Some(n)
    ensures KillTold(events + [e], n)
  {
    MemberMore(events, e);
  }

  lemma CleanupKill(events: seq<Event>, s: State, n: State, parses: Text -> bool)
    requires KillTold(events, s) && Invariant(s, parses) && Cleanup(s) == Some(n)
    ensures KillTold(events + [CleanupResumed], n)
  {
    MemberMore(events, CleanupResumed);
  }

  lemma KillStep(events: seq<Event>, e: Event, s: State, n: State, parses: Text -> bool)
    requires KillTold(events, s) && Invariant(s, parses) && Step(s, e, parses) == Some(n)
    ensures KillTold(events + [e], n)
  {
    match e {
      case HandlesOpened | HandlesFailed | SpawnReturned(_) => LaunchKill(events, e, s, n, parses);
      case Chunk(_, _, _) | PipeClosed(_) | ChildExited(_) => ChildKill(events, e, s, n, parses);
      case CleanupResumed => CleanupKill(events, s, n, parses);
      case Synced(_) | ArtifactWritten(_) | StatusWritten(_) => PublishKill(events, e, s, n, parses);
      case _ => MainKill(events, e, s, n, parses);
    }
  }

  // ----- every run -----

  ghost predicate Told(events: seq<Event>, s: State, parses: Text -> bool) {
    && Invariant(s, parses) && PipesTold(events, s.io) && RestTold(events, s)
    && JudgedTold(events, s, parses) && PublishedTold(events, s) && KillTold(events, s)
  }

  lemma ToldStep(events: seq<Event>, e: Event, s: State, n: State, parses: Text -> bool)
    requires Told(events, s, parses) && Step(s, e, parses) == Some(n)
    ensures Told(events + [e], n, parses)
  {
    StepKeeps(s, e, parses);
    PipesStep(events, e, s, n, parses);
    RestStep(events, e, s, n, parses);
    JudgedStep(events, e, s, n, parses);
    PublishedStep(events, e, s, n, parses);
    KillStep(events, e, s, n, parses);
  }

  lemma OneByOne(before: seq<Event>, events: seq<Event>)
    requires events != []
    ensures before + [events[0]] + events[1..] == before + events
  {}

  lemma {:induction false} RunTold(before: seq<Event>, s: State, events: seq<Event>, parses: Text -> bool, end: State)
    requires Told(before, s, parses) && Run(s, events, parses) == Some(end)
    ensures Told(before + events, end, parses)
    decreases |events|
  {
    if events == [] {
      assert before + events == before;
    } else {
      var e, rest, now := events[0], events[1..], before + [events[0]];
      var n := Step(s, e, parses).value;
      ToldStep(before, e, s, n, parses);
      OneByOne(before, events);
      RunTold(now, n, rest, parses, end);
    }
  }

  /** What has to happen, and what must not, for a capture to be complete. */
  predicate Received(events: seq<Event>, parses: Text -> bool) {
    && ExchangeDone in events && ChildExited(0) in events
    && !TooMuch(events) && !SomeShort(events) && Sent(events, Stderr) == [] && parses(Sent(events, Stdout))
    && Cancelled !in events && Synced(false) !in events && ArtifactWritten(false) !in events
  }

  /** The published status, field by field, as the events of the run have it. */
  ghost predicate StatusOf(events: seq<Event>, parses: Text -> bool, st: Status) {
    && (st.complete <==> Received(events, parses))
    && (st.launchRequested <==> HandlesOpened in events)
    && (forall c :: st.returncode == Some(c) <==> ChildExited(c) in events)
    && (st.stdoutEof <==> PipeClosed(Stdout) in events) && (st.stderrEof <==> PipeClosed(Stderr) in events)
    && st.stdoutBytes == Min(|Sent(events, Stdout)|, 81921) && st.stderrBytes == Min(|Sent(events, Stderr)|, 1025)
    && (st.overflow <==> TooMuch(events)) && (st.timedOut <==> TimeoutFired in events)
    && (st.ioFailed <==> SomeShort(events))
  }

  lemma CompleteIsReceived(events: seq<Event>, parses: Text -> bool, s: State)
    requires Told(events, s, parses) && s.pc == Finished
    ensures s.verdict.complete <==> Received(events, parses)
  {
    Uncut(s.io.out.read, s.io.out.buffer, 81920);
    Uncut(s.io.err.read, s.io.err.buffer, 1024);
  }

  lemma Uncut(read: Text, buffer: Text, bound: nat)
    requires buffer == read[..Min(|read|, bound + 1)]
    ensures |read| <= bound ==> buffer == read
    ensures buffer == [] <==> read == []
  {}

  lemma SnapshotTells(events: seq<Event>, parses: Text -> bool, s: State)
    requires Told(events, s, parses) && s.pc == Finished
    ensures StatusOf(events, parses, Snapshot(s))
  {
    CompleteIsReceived(events, parses, s);
  }

  lemma InitialTold(parses: Text -> bool)
    ensures Told([], INITIAL, parses)
  {}

  lemma RunIsTold(events: seq<Event>, parses: Text -> bool, s: State)
    requires Run(INITIAL, events, parses) == Some(s)
    ensures Told(events, s, parses)
  {
    InitialTold(parses);
    RunTold([], INITIAL, events, parses, s);
    assert [] + events == events;
  }

  lemma PublishedIsTold(events: seq<Event>, parses: Text -> bool, s: State)
    requires RestTold(events, s) && s.pc == Finished
    ensures s.verdict.status.None? <==> StatusWritten(false) in events
  {}

  /**
    Every finished run published, unless writing the status failed, exactly the status that its events call for,
    and the artifact exactly when all of it was received: then it is what came through the first pipe.
   */
  lemma FinishedIsTold(events: seq<Event>, parses: Text -> bool, s: State)
    requires Run(INITIAL, events, parses) == Some(s) && s.pc == Finished
    ensures s.verdict.status.None? <==> StatusWritten(false) in events
    ensures s.verdict.status.Some? ==> StatusOf(events, parses, s.verdict.status.value)
    ensures s.verdict.artifact == if Received(events, parses) then Some(Sent(events, Stdout)) else None
  {
    RunIsTold(events, parses, s);
    PublishedIsTold(events, parses, s);
    SnapshotTells(events, parses, s);
    CompleteIsReceived(events, parses, s);
  }

  lemma BuffersTold(events: seq<Event>, io: Io)
    requires PipesTold(events, io) && Captures(io)
    ensures io.out.buffer == Sent(events, Stdout)[..Min(|Sent(events, Stdout)|, 81921)]
    ensures io.err.buffer == Sent(events, Stderr)[..Min(|Sent(events, Stderr)|, 1025)]
    ensures !SomeShort(events) ==> io.out.file == io.out.buffer && io.err.file == io.err.buffer
    ensures io.out.file == Kept(events, Stdout) <= io.out.buffer && io.err.file == Kept(events, Stderr) <= io.err.buffer
  {}

  /** At every moment the buffers and files are as the events so far have filled them. */
  lemma BuffersAreTold(events: seq<Event>, parses: Text -> bool, s: State)
    requires Run(INITIAL, events, parses) == Some(s)
    ensures s.io.out.buffer == Sent(events, Stdout)[..Min(|Sent(events, Stdout)|, 81921)]
    ensures s.io.err.buffer == Sent(events, Stderr)[..Min(|Sent(events, Stderr)|, 1025)]
    ensures !SomeShort(events) ==> s.io.out.file == s.io.out.buffer && s.io.err.file == s.io.err.buffer
    ensures s.io.out.file == Kept(events, Stdout) <= s.io.out.buffer
    ensures s.io.err.file == Kept(events, Stderr) <= s.io.err.buffer
  {
    RunIsTold(events, parses, s);
    BuffersTold(events, s.io);
  }

  lemma KillSays(events: seq<Event>, s: State)
    requires PipesTold(events, s.io) && Captures(s.io) && KillTold(events, s) && Readers(s)
    ensures s.process.killed ==> TooMuch(events) || SomeShort(events) || CleanupResumed in events
    ensures TooMuch(events) || SomeShort(events) || (CleanupResumed in events && SpawnReturned(true) in events) ==>
      s.process.killed || s.process.returncode.Some?
  {}

  /** A child is killed for too much output, for a failed write, or by cleanup, and cleanup leaves none running. */
  lemma KillIsTold(events: seq<Event>, parses: Text -> bool, s: State)
    requires Run(INITIAL, events, parses) == Some(s)
    ensures s.process.killed ==> TooMuch(events) || SomeShort(events) || CleanupResumed in events
    ensures TooMuch(events) || SomeShort(events) || (CleanupResumed in events && SpawnReturned(true) in events) ==>
      s.process.killed || s.process.returncode.Some?
  {
    RunIsTold(events, parses, s);
    KillSays(events, s);
  }
}
