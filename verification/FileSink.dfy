/**
 * The sink of the log files: a buffer per level, one asynchronous write per file, a timer, and a blocking flush for the
 * exit. `Sink` and `Step` say what every event does to all the levels together; the code that does it is in
 * `WriteBehindSink`.
 */
module FileSink {
  import opened Bytes
  import opened FileSinkLane

  const LOG_MAX_BUFFER_SIZE := 64 * 1024
  const LOG_MAX_QUEUE_SIZE := 16 * 1024 * 1024

  datatype Sink = Sink(lanes: seq<Lane>, bufferSize: int, dropped: nat, reported: nat, timer: bool)

  /** `canOpen` are the levels whose file can be opened at that moment. */
  datatype Event =
    | Logs(level: nat, line: Line, canOpen: set<nat>)
    | TimerFires(canOpen: set<nat>)
    | Flushes(canOpen: set<nat>)
    | Lands(level: nat, write: nat, bytes: nat)
    | Completes(level: nat, write: nat)
    | Fails(level: nat, write: nat)

  function Buffered(lanes: seq<Lane>): nat {
    if lanes == [] then 0 else Length(lanes[0].buffer) + Buffered(lanes[1..])
  }

  function Start(files: seq<seq<Byte>>): Sink {
    Sink(seq(|files|, i requires 0 <= i < |files| => Fresh(files[i])), 0, 0, 0, false)
  }

  predicate Enabled(s: Sink, e: Event) {
    match e
    case Logs(level, _, _) => level < |s.lanes|
    case TimerFires(_) => s.timer
    case Flushes(_) => true
    case Lands(level, write, bytes) => level < |s.lanes| && CanLand(s.lanes[level], write, bytes)
    case Completes(level, write) => level < |s.lanes| && write < |s.lanes[level].writes|
    case Fails(level, write) => level < |s.lanes| && write < |s.lanes[level].writes|
  }

  function StartWrites(lanes: seq<Lane>, canOpen: set<nat>): seq<Lane> {
    seq(|lanes|, i requires 0 <= i < |lanes| => if lanes[i].buffer == [] then lanes[i]
      else Begin(lanes[i], i in canOpen))
  }

  function FlushLanes(lanes: seq<Lane>, canOpen: set<nat>): seq<Lane> {
    seq(|lanes|, i requires 0 <= i < |lanes| =>
      if lanes[i].file.None? && lanes[i].buffer == [] then lanes[i] else Flush(lanes[i], i in canOpen))
  }

  function FlushAsync(s: Sink, canOpen: set<nat>): Sink {
    var lanes := StartWrites(s.lanes, canOpen);
    s.(lanes := lanes, bufferSize := Buffered(lanes), timer := Buffered(lanes) > 0)
  }

  function Log(interval: nat, s: Sink, level: nat, line: Line, canOpen: set<nat>): Sink
    requires level < |s.lanes|
  {
    if s.bufferSize > LOG_MAX_QUEUE_SIZE then s.(dropped := s.dropped + 1)
    else
      var lanes := s.lanes[level := Append(s.lanes[level], line)];
      var size := s.bufferSize + line.length;
      if interval == 0 then
        var written := lanes[level := Flush(lanes[level], level in canOpen)];
        s.(lanes := written, bufferSize := Buffered(written))
      else if size > LOG_MAX_BUFFER_SIZE then FlushAsync(s.(lanes := lanes, bufferSize := size), canOpen)
      else s.(lanes := lanes, bufferSize := size, timer := true)
  }

  /** The callback of a write, which ends the chunk of the file when `done` says so. */
  function WriteEnded(s: Sink, level: nat, lane: Lane, done: bool): Sink
    requires level < |s.lanes|
  {
    var after := s.(lanes := s.lanes[level := lane]);
    if done then after.(dropped := 0, reported := s.reported + s.dropped, timer := s.timer || lane.buffer != [])
      else after
  }

  /** An event that cannot happen changes nothing. */
  function Step(interval: nat, s: Sink, e: Event): (r: Sink)
    ensures |r.lanes| == |s.lanes|
  {
    if !Enabled(s, e) then s
    else match e
      case Logs(level, line, canOpen) => Log(interval, s, level, line, canOpen)
      case TimerFires(canOpen) => FlushAsync(s, canOpen)
      case Flushes(canOpen) =>
        Sink(FlushLanes(s.lanes, canOpen), Buffered(FlushLanes(s.lanes, canOpen)), 0, s.reported + s.dropped, false)
      case Lands(level, write, bytes) => s.(lanes := s.lanes[level := Land(s.lanes[level], write, bytes)])
      case Completes(level, write) =>
        var lane := s.lanes[level];
        var w := lane.writes[write];
        WriteEnded(s, level, Complete(lane, write), IsPending(lane, w.chunk)
          && w.done + w.landed == |Encode(w.chunk.lines)|)
      case Fails(level, write) =>
        var lane := s.lanes[level];
        WriteEnded(s, level, Fail(lane, write), IsPending(lane, lane.writes[write].chunk))
  }

  function Run(interval: nat, s: Sink, events: seq<Event>): Sink {
    if events == [] then s
    else Step(interval, Run(interval, s, events[..|events| - 1]), events[|events| - 1])
  }

  // ----- what every event keeps -----

  ghost predicate SinkValid(interval: nat, s: Sink) {
    && (forall i :: 0 <= i < |s.lanes| ==> Valid(s.lanes[i]))
    && s.bufferSize == Buffered(s.lanes)
    && (interval == 0 ==> s.bufferSize == 0)
    && (s.timer <==> s.bufferSize > 0)
  }

  lemma {:induction false} BufferedUpdate(lanes: seq<Lane>, i: nat, lane: Lane)
    requires i < |lanes|
    ensures Buffered(lanes[i := lane]) == Buffered(lanes) - Length(lanes[i].buffer) + Length(lane.buffer)
  {
    if i == 0 {
      assert lanes[i := lane][1..] == lanes[1..];
    } else {
      BufferedUpdate(lanes[1..], i - 1, lane);
      assert lanes[i := lane][1..] == lanes[1..][i - 1 := lane];
    }
  }

  lemma {:induction false} BufferedNone(lanes: seq<Lane>)
    ensures Buffered(lanes) == 0 <==> forall i :: 0 <= i < |lanes| ==> lanes[i].buffer == []
  {
    if lanes != [] {
      BufferedNone(lanes[1..]);
      assert forall i :: 0 < i < |lanes| ==> lanes[i] == lanes[1..][i - 1];
    }
  }

  lemma {:induction false} LengthPush(lines: seq<Line>, line: Line)
    ensures Length(lines + [line]) == Length(lines) + line.length
  {
    if lines != [] {
      LengthPush(lines[1..], line);
      assert (lines + [line])[1..] == lines[1..] + [line];
    }
  }

  lemma StartValid(interval: nat, files: seq<seq<Byte>>)
    ensures SinkValid(interval, Start(files))
  {
    BufferedNone(Start(files).lanes);
  }

  lemma AppendSize(s: Sink, level: nat, line: Line)
    requires level < |s.lanes| && s.bufferSize == Buffered(s.lanes)
    ensures Buffered(s.lanes[level := Append(s.lanes[level], line)]) == s.bufferSize + line.length
  {
    BufferedUpdate(s.lanes, level, Append(s.lanes[level], line));
    LengthPush(s.lanes[level].buffer, line);
  }

  lemma FlushAsyncValid(interval: nat, s: Sink, canOpen: set<nat>)
    requires interval > 0 && forall i :: 0 <= i < |s.lanes| ==> Valid(s.lanes[i])
    ensures SinkValid(interval, FlushAsync(s, canOpen))
  {
    forall i | 0 <= i < |s.lanes| ensures Valid(StartWrites(s.lanes, canOpen)[i]) {
      BeginValid(s.lanes[i], i in canOpen);
    }
  }

  lemma StepValid(interval: nat, s: Sink, e: Event)
    requires SinkValid(interval, s)
    ensures SinkValid(interval, Step(interval, s, e))
  {
    hide Begin, Flush, Valid, StartWrites, FlushLanes, Append;
    if Enabled(s, e) {
      match e
      case Logs(level, line, canOpen) =>
        LogValid(interval, s, level, line, canOpen);
      case TimerFires(canOpen) =>
        TimerValid(interval, s, canOpen);
      case Flushes(canOpen) =>
        FlushesValid(interval, s, canOpen);
      case Lands(level, write, bytes) =>
        LandValid(s.lanes[level], write, bytes);
        WriteEndedValid(interval, s, level, Land(s.lanes[level], write, bytes), false);
      case Completes(level, write) =>
        var w := s.lanes[level].writes[write];
        CompleteValid(s.lanes[level], write);
        WriteEndedValid(interval, s, level, Complete(s.lanes[level], write),
                        IsPending(s.lanes[level], w.chunk) && w.done + w.landed == |Encode(w.chunk.lines)|);
      case Fails(level, write) =>
        FailValid(s.lanes[level], write);
        WriteEndedValid(interval, s, level, Fail(s.lanes[level], write),
          IsPending(s.lanes[level], s.lanes[level].writes[write].chunk));
    }
  }

  lemma TimerValid(interval: nat, s: Sink, canOpen: set<nat>)
    requires SinkValid(interval, s)
    ensures SinkValid(interval, FlushAsync(s, canOpen))
  {
    if interval > 0 {
      FlushAsyncValid(interval, s, canOpen);
    } else {
      BufferedNone(s.lanes);
      assert StartWrites(s.lanes, canOpen) == s.lanes;
    }
  }

  lemma FlushesValid(interval: nat, s: Sink, canOpen: set<nat>)
    requires SinkValid(interval, s)
    ensures SinkValid(interval, Step(interval, s, Flushes(canOpen)))
    ensures Buffered(FlushLanes(s.lanes, canOpen)) == 0
  {
    hide Flush, Valid;
    forall i | 0 <= i < |s.lanes| ensures Valid(FlushLanes(s.lanes, canOpen)[i])
      && FlushLanes(s.lanes, canOpen)[i].buffer == [] {
      FlushValid(s.lanes[i], i in canOpen);
      FlushEmpties(s.lanes[i], i in canOpen);
    }
    BufferedNone(FlushLanes(s.lanes, canOpen));
  }

  lemma WriteEndedValid(interval: nat, s: Sink, level: nat, lane: Lane, done: bool)
    requires SinkValid(interval, s) && level < |s.lanes| && Valid(lane) && lane.buffer == s.lanes[level].buffer
    ensures SinkValid(interval, WriteEnded(s, level, lane, done))
  {
    BufferedUpdate(s.lanes, level, lane);
    BufferedNone(s.lanes);
  }

  lemma LogValid(interval: nat, s: Sink, level: nat, line: Line, canOpen: set<nat>)
    requires SinkValid(interval, s) && level < |s.lanes|
    ensures SinkValid(interval, Log(interval, s, level, line, canOpen))
  {
    hide Begin, Flush, Valid, StartWrites;
    var lane := Append(s.lanes[level], line);
    AppendValid(s.lanes[level], line);
    AppendSize(s, level, line);
    if interval == 0 {
      FlushValid(lane, level in canOpen);
      FlushEmpties(lane, level in canOpen);
      BufferedNone(s.lanes);
      BufferedNone(s.lanes[level := lane][level := Flush(lane, level in canOpen)]);
    } else if s.bufferSize <= LOG_MAX_QUEUE_SIZE && s.bufferSize + line.length > LOG_MAX_BUFFER_SIZE {
      FlushAsyncValid(interval, s.(lanes := s.lanes[level := lane], bufferSize := s.bufferSize + line.length), canOpen);
    }
  }

  lemma {:induction false} RunValid(interval: nat, s: Sink, events: seq<Event>)
    requires SinkValid(interval, s)
    ensures SinkValid(interval, Run(interval, s, events))
    ensures |Run(interval, s, events).lanes| == |s.lanes|
  {
    if events != [] {
      hide Step, SinkValid;
      RunValid(interval, s, events[..|events| - 1]);
      StepValid(interval, Run(interval, s, events[..|events| - 1]), events[|events| - 1]);
    }
  }

  // ----- whole runs -----

  lemma StepKeepsStart(interval: nat, s: Sink, e: Event, level: nat)
    requires level < |s.lanes|
    ensures Step(interval, s, e).lanes[level].start == s.lanes[level].start
  {
    hide Append, Begin, Land, Complete, Fail, Flush;
  }

  lemma {:induction false} RunKeepsStart(interval: nat, files: seq<seq<Byte>>, events: seq<Event>, level: nat)
    requires level < |files|
    ensures |Run(interval, Start(files), events).lanes| == |files|
    ensures Run(interval, Start(files), events).lanes[level].start == files[level]
  {
    hide Step;
    if events != [] {
      RunKeepsStart(interval, files, events[..|events| - 1], level);
      StepKeepsStart(interval, Run(interval, Start(files), events[..|events| - 1]), events[|events| - 1], level);
    }
  }

  /**
   * In every run, whatever the order of lines, timers, flushes, partial writes and failures: with the chunk on its way
   * counted as written, the first `offset` bytes of an opened file are its old content and the lines of the chunks that
   * did not fail, in the order they were logged. Every accepted line was taken once, in order, or is still buffered.
   */
  lemma EveryRunKeepsTheOrder(interval: nat, files: seq<seq<Byte>>, events: seq<Event>, level: nat)
    requires level < |files|
    ensures var s := Run(interval, Start(files), events);
      && |s.lanes| == |files|
      && var lane := s.lanes[level];
      && lane.accepted == Taken(lane.batches) + lane.buffer
      && (lane.file.Some? ==>
            && lane.file.value.offset <= |Settled(lane)|
            && Settled(lane)[..lane.file.value.offset] == files[level] + Encode(Kept(lane.batches)))
      && s.bufferSize == Buffered(s.lanes)
      && (s.timer <==> exists i :: 0 <= i < |s.lanes| && s.lanes[i].buffer != [])
  {
    hide Step, Taken, Kept, Encode;
    StartValid(interval, files);
    RunValid(interval, Start(files), events);
    RunKeepsStart(interval, files, events, level);
    var s := Run(interval, Start(files), events);
    if s.lanes[level].file.Some? {
      SettlePending(s.lanes[level]);
      assert Meant(s.lanes[level])[..|Meant(s.lanes[level])|] == Meant(s.lanes[level]);
    }
    BufferedNone(s.lanes);
  }

  /** The system storing bytes and reporting back, with nothing logged or flushed meanwhile. */
  predicate IsLate(e: Event) {
    e.Lands? || e.Completes? || e.Fails?
  }

  /** No file has a chunk on its way. */
  ghost predicate Quiet(s: Sink) {
    forall i :: 0 <= i < |s.lanes| ==>
      Valid(s.lanes[i]) && (s.lanes[i].file.Some? ==> s.lanes[i].file.value.pending.None?)
  }

  predicate SameFiles(s: Sink, r: Sink) {
    |r.lanes| == |s.lanes| && forall i :: 0 <= i < |s.lanes| ==>
      r.lanes[i].disk == s.lanes[i].disk && r.lanes[i].file == s.lanes[i].file
  }

  ghost predicate KeepsTheFile(lane: Lane, after: Lane) {
    Valid(after) && after.disk == lane.disk && after.file == lane.file
  }

  /** What is left to store or to report of a file without a chunk on its way changes neither. */
  lemma LateLane(lane: Lane, write: nat, bytes: nat)
    requires Valid(lane) && (lane.file.Some? ==> lane.file.value.pending.None?) && write < |lane.writes|
    ensures KeepsTheFile(lane, Complete(lane, write)) && KeepsTheFile(lane, Fail(lane, write))
    ensures CanLand(lane, write, bytes) ==> KeepsTheFile(lane, Land(lane, write, bytes))
  {
    hide Valid, Land;
    CompleteValid(lane, write);
    FailValid(lane, write);
    if CanLand(lane, write, bytes) {
      LandValid(lane, write, bytes);
      StaleLand(lane, write, bytes);
      LandKeepsFile(lane, write, bytes);
    }
  }

  lemma LandKeepsFile(lane: Lane, write: nat, bytes: nat)
    requires CanLand(lane, write, bytes)
    ensures Land(lane, write, bytes).file == lane.file
  {
  }

  lemma LateStep(interval: nat, s: Sink, e: Event)
    requires Quiet(s) && IsLate(e)
    ensures Quiet(Step(interval, s, e)) && SameFiles(s, Step(interval, s, e))
  {
    hide Valid, Land, Complete, Fail, Encode, CanLand, IsPending;
    if Enabled(s, e) {
      LateWrite(s, e);
      LateLane(s.lanes[e.level], e.write, if e.Lands? then e.bytes else 0);
    }
  }

  lemma LateWrite(s: Sink, e: Event)
    requires IsLate(e) && Enabled(s, e)
    ensures e.level < |s.lanes| && e.write < |s.lanes[e.level].writes|
  {
  }

  lemma {:induction false} LateRun(interval: nat, s: Sink, late: seq<Event>)
    requires Quiet(s) && forall i :: 0 <= i < |late| ==> IsLate(late[i])
    ensures Quiet(Run(interval, s, late)) && SameFiles(s, Run(interval, s, late))
  {
    if late != [] {
      hide Step, Valid;
      LateRun(interval, s, late[..|late| - 1]);
      LateStep(interval, Run(interval, s, late[..|late| - 1]), late[|late| - 1]);
    }
  }

  lemma FlushesQuiet(interval: nat, s: Sink, canOpen: set<nat>)
    requires SinkValid(interval, s)
    ensures Quiet(Step(interval, s, Flushes(canOpen)))
  {
    hide Valid;
    FlushesValid(interval, s, canOpen);
  }

  /** The lines logged to a level. */
  function Logged(events: seq<Event>, level: nat): seq<Line> {
    if events == [] then []
    else
      var last := events[|events| - 1];
      Logged(events[..|events| - 1], level) + if last.Logs? && last.level == level then [last.line] else []
  }

  /** An event in which the disk and the opening of files do not fail. */
  predicate Works(e: Event, levels: nat) {
    match e
    case Fails(_, _) => false
    case Logs(level, _, canOpen) => level < levels && level in canOpen && forall i: nat :: i < levels ==> i in canOpen
    case TimerFires(canOpen) => forall i: nat :: i < levels ==> i in canOpen
    case Flushes(canOpen) => forall i: nat :: i < levels ==> i in canOpen
    case _ => true
  }

  /** All lines of `lines` were accepted, unless some were dropped. */
  ghost predicate Faithful(s: Sink, level: nat, lines: seq<Line>) {
    level < |s.lanes| && Calm(s.lanes[level]) && (s.dropped + s.reported == 0 ==> s.lanes[level].accepted == lines)
  }

  lemma StepFaithful(interval: nat, s: Sink, e: Event, level: nat, lines: seq<Line>)
    requires SinkValid(interval, s) && Faithful(s, level, lines) && Works(e, |s.lanes|)
    ensures Faithful(Step(interval, s, e), level, lines + if e.Logs? && e.level == level then [e.line] else [])
  {
    hide Calm, Valid, FlushAsync, Begin, Log;
    if Enabled(s, e) {
      match e
      case Logs(at, line, canOpen) =>
        LogFaithful(interval, s, at, line, canOpen, level, lines);
      case TimerFires(canOpen) =>
        FlushAsyncLane(s, canOpen, level);
        KeepsAccepted(s.lanes[level]);
        BeginCalm(s.lanes[level]);
      case Flushes(canOpen) =>
        FlushCalm(s.lanes[level]);
      case Lands(at, write, bytes) =>
        if at == level {
          LandCalm(s.lanes[level], write, bytes);
        }
      case Completes(at, write) =>
        if at == level {
          CompleteCalm(s.lanes[level], write);
        }
    }
  }

  lemma LogFaithful(interval: nat, s: Sink, at: nat, line: Line, canOpen: set<nat>, level: nat, lines: seq<Line>)
    requires at < |s.lanes| && at in canOpen && level in canOpen && Faithful(s, level, lines)
    ensures Faithful(Log(interval, s, at, line, canOpen), level, lines + if at == level then [line] else [])
  {
    hide Calm, Valid, Begin, FileSinkLane.Flush, FlushAsync;
    var lanes := s.lanes[at := Append(s.lanes[at], line)];
    FlushAsyncLane(s.(lanes := lanes, bufferSize := s.bufferSize + line.length), canOpen, level);
    var lane := if at == level then Append(s.lanes[level], line) else s.lanes[level];
    AppendCalm(s.lanes[level], line);
    BeginCalm(lane);
    FlushCalm(lane);
    KeepsAccepted(lane);
  }

  lemma FlushAsyncLane(s: Sink, canOpen: set<nat>, level: nat)
    requires level < |s.lanes|
    ensures var after, lane := FlushAsync(s, canOpen), s.lanes[level];
      && |after.lanes| == |s.lanes| && after.dropped == s.dropped && after.reported == s.reported
      && after.lanes[level] == if lane.buffer == [] then lane else Begin(lane, level in canOpen)
  {
    hide Begin, Buffered;
  }

  /** Lines are accepted when they are logged and at no other time. */
  lemma KeepsAccepted(lane: Lane)
    ensures Begin(lane, true).accepted == lane.accepted && FileSinkLane.Flush(lane, true).accepted == lane.accepted
  {
  }

  lemma {:induction false} RunFaithful(interval: nat, files: seq<seq<Byte>>, events: seq<Event>, level: nat)
    requires level < |files| && forall i :: 0 <= i < |events| ==> Works(events[i], |files|)
    ensures Faithful(Run(interval, Start(files), events), level, Logged(events, level))
  {
    hide Step, Calm, Valid;
    StartValid(interval, files);
    if events == [] {
      FreshCalm(files[level]);
    } else {
      var before := events[..|events| - 1];
      RunFaithful(interval, files, before, level);
      RunValid(interval, Start(files), before);
      StepFaithful(interval, Run(interval, Start(files), before), events[|events| - 1], level, Logged(before, level));
    }
  }

  /**
   * After a flush the files hold everything: when no write fails and no line was dropped, each file is its old content
   * followed by every line that was logged to it, once and in order. The writes that are still in flight change nothing
   * any more, whenever they reach the disk and however their callbacks end.
   */
  lemma FlushedFilesAreTheLog(interval: nat, files: seq<seq<Byte>>, events: seq<Event>, canOpen: set<nat>,
          late: seq<Event>, level: nat)
    requires level < |files| && Works(Flushes(canOpen), |files|)
    requires forall i :: 0 <= i < |events| ==> Works(events[i], |files|)
    requires forall i :: 0 <= i < |late| ==> IsLate(late[i])
    ensures var flushed := Step(interval, Run(interval, Start(files), events), Flushes(canOpen));
      && |flushed.lanes| == |Run(interval, flushed, late).lanes| == |files|
      && Run(interval, flushed, late).lanes[level].disk == flushed.lanes[level].disk
      && (flushed.reported == 0 ==> flushed.lanes[level].disk == files[level] + Encode(Logged(events, level)))
  {
    hide Step, Calm, Valid, Encode, Logged;
    var s := Run(interval, Start(files), events);
    StartValid(interval, files);
    RunValid(interval, Start(files), events);
    RunFaithful(interval, files, events, level);
    RunKeepsStart(interval, files, events, level);
    FlushesQuiet(interval, s, canOpen);
    LateRun(interval, Step(interval, s, Flushes(canOpen)), late);
    FlushesLane(interval, s, canOpen, level);
  }

  lemma FlushesLane(interval: nat, s: Sink, canOpen: set<nat>, level: nat)
    requires level < |s.lanes| && Calm(s.lanes[level]) && level in canOpen
    ensures var flushed := Step(interval, s, Flushes(canOpen));
      && flushed.lanes[level].disk == s.lanes[level].start + Encode(s.lanes[level].accepted)
      && flushed.reported == s.dropped + s.reported
  {
    hide Encode, Flush;
    FlushCalm(s.lanes[level]);
    if s.lanes[level].file.None? && s.lanes[level].buffer == [] {
      UnopenedCalm(s.lanes[level]);
    }
  }

  // ----- which lines are accepted -----

  lemma RunPush(interval: nat, s: Sink, events: seq<Event>, e: Event)
    ensures Run(interval, s, events + [e]) == Step(interval, Run(interval, s, events), e)
  {
    assert (events + [e])[..|events|] == events;
  }

  /** The steps of a file neither accept lines nor forget them. */
  lemma StepsKeepAccepted(lane: Lane, canOpen: bool)
    ensures Begin(lane, canOpen).accepted == lane.accepted
    ensures FileSinkLane.Flush(lane, canOpen).accepted == lane.accepted
  {
  }

  /** After any event a level has accepted what it had, and the line that was logged to it if it was not dropped. */
  predicate AcceptedIs(s: Sink, after: Sink, level: int, line: Line) {
    && |after.lanes| == |s.lanes|
    && forall i :: 0 <= i < |s.lanes| ==>
         after.lanes[i].accepted == s.lanes[i].accepted + if i == level then [line] else []
  }

  /**
   * In every run: a line is accepted, and nothing is dropped, exactly when at most 16 MiB wait; otherwise it is counted
   * as dropped, and that is all that happens.
   */
  lemma LineIsDroppedExactlyWhenFull(interval: nat, files: seq<seq<Byte>>, events: seq<Event>, level: nat, line: Line,
          canOpen: set<nat>)
    requires level < |files|
    ensures var s := Run(interval, Start(files), events);
      var after := Run(interval, Start(files), events + [Logs(level, line, canOpen)]);
      if Buffered(s.lanes) <= 16 * 1024 * 1024 then
        AcceptedIs(s, after, level, line) && after.dropped == s.dropped && after.reported == s.reported
      else after == s.(dropped := s.dropped + 1)
  {
    hide Step, Run, AcceptedIs, Buffered;
    StartValid(interval, files);
    RunValid(interval, Start(files), events);
    RunPush(interval, Start(files), events, Logs(level, line, canOpen));
    LogAccepts(interval, Run(interval, Start(files), events), level, line, canOpen);
  }

  lemma LogAccepts(interval: nat, s: Sink, level: nat, line: Line, canOpen: set<nat>)
    requires level < |s.lanes| && s.bufferSize == Buffered(s.lanes)
    ensures var after := Step(interval, s, Logs(level, line, canOpen));
      if Buffered(s.lanes) <= 16 * 1024 * 1024 then
        AcceptedIs(s, after, level, line) && after.dropped == s.dropped && after.reported == s.reported
      else after == s.(dropped := s.dropped + 1)
  {
    hide Begin, FileSinkLane.Flush, Buffered;
    forall i | 0 <= i < |s.lanes|
      ensures forall canOpen, lane :: lane in {s.lanes[i], Append(s.lanes[i], line)} ==>
        && Begin(lane, canOpen).accepted == lane.accepted
        && FileSinkLane.Flush(lane, canOpen).accepted == lane.accepted
    {
      forall lane, canOpen {
        StepsKeepAccepted(lane, canOpen);
      }
    }
  }

  /** All other events accept and drop nothing. */
  lemma OthersAcceptNothing(interval: nat, s: Sink, e: Event, line: Line)
    requires !e.Logs?
    ensures AcceptedIs(s, Step(interval, s, e), -1, line)
    ensures var after := Step(interval, s, e);
      after.dropped + after.reported == s.dropped + s.reported && after.dropped in {0, s.dropped}
  {
    hide Begin, FileSinkLane.Flush, Buffered;
    forall lane, canOpen ensures Begin(lane, canOpen).accepted == lane.accepted
      && FileSinkLane.Flush(lane, canOpen).accepted == lane.accepted {
      StepsKeepAccepted(lane, canOpen);
    }
  }

  /** How many lines the levels have accepted. */
  function Accepted(lanes: seq<Lane>): nat {
    if lanes == [] then 0 else |lanes[0].accepted| + Accepted(lanes[1..])
  }

  lemma {:induction false} AcceptedMore(lanes: seq<Lane>, after: seq<Lane>, level: int, line: Line)
    requires |after| == |lanes|
    requires forall i :: 0 <= i < |lanes| ==>
      after[i].accepted == lanes[i].accepted + if i == level then [line] else []
    ensures Accepted(after) == Accepted(lanes) + if 0 <= level < |lanes| then 1 else 0
  {
    if lanes != [] {
      assert after[0].accepted == lanes[0].accepted + if 0 == level then [line] else [];
      forall i | 0 <= i < |lanes| - 1
        ensures after[1..][i].accepted == lanes[1..][i].accepted + if i == level - 1 then [line] else []
      {
        assert after[i + 1].accepted == lanes[i + 1].accepted + if i + 1 == level then [line] else [];
      }
      AcceptedMore(lanes[1..], after[1..], level - 1, line);
    }
  }

  function LinesLogged(events: seq<Event>, levels: nat): nat {
    if events == [] then 0
    else
      var last := events[|events| - 1];
      LinesLogged(events[..|events| - 1], levels) + if last.Logs? && last.level < levels then 1 else 0
  }

  lemma {:induction false} AcceptedNone(lanes: seq<Lane>)
    requires forall i :: 0 <= i < |lanes| ==> lanes[i].accepted == []
    ensures Accepted(lanes) == 0
  {
    if lanes != [] {
      AcceptedNone(lanes[1..]);
    }
  }

  /** In every run each line that was logged was accepted once, was reported as dropped, or is still to be reported. */
  lemma {:induction false} EveryLineIsAccountedFor(interval: nat, files: seq<seq<Byte>>, events: seq<Event>)
    ensures var s := Run(interval, Start(files), events);
      LinesLogged(events, |files|) == Accepted(s.lanes) + s.dropped + s.reported
  {
    hide Step, Accepted, Buffered;
    if events == [] {
      AcceptedNone(Start(files).lanes);
    } else {
      var before, e := events[..|events| - 1], events[|events| - 1];
      var s := Run(interval, Start(files), before);
      EveryLineIsAccountedFor(interval, files, before);
      StartValid(interval, files);
      RunValid(interval, Start(files), before);
      var line := if e.Logs? then e.line else Text(1, [10]);
      var after := Step(interval, s, e);
      if e.Logs? && e.level < |files| {
        LogAccepts(interval, s, e.level, line, e.canOpen);
        if Buffered(s.lanes) <= 16 * 1024 * 1024 {
          AcceptedMore(s.lanes, after.lanes, e.level, line);
        }
      } else if e.Logs? {
        NoSuchLevel(interval, s, e);
      } else {
        OthersAcceptNothing(interval, s, e, line);
        AcceptedMore(s.lanes, after.lanes, -1, line);
      }
    }
  }

  lemma NoSuchLevel(interval: nat, s: Sink, e: Event)
    requires e.Logs? && e.level >= |s.lanes|
    ensures Step(interval, s, e) == s
  {
  }

  /** At most 16 MiB waited whenever a line was logged. */
  ghost predicate NeverFull(interval: nat, files: seq<seq<Byte>>, events: seq<Event>) {
    forall i :: 0 <= i < |events| && events[i].Logs? ==>
      Buffered(Run(interval, Start(files), events[..i]).lanes) <= 16 * 1024 * 1024
  }

  lemma {:induction false} NothingIsDropped(interval: nat, files: seq<seq<Byte>>, events: seq<Event>)
    requires NeverFull(interval, files, events)
    ensures var s := Run(interval, Start(files), events); s.dropped == 0 && s.reported == 0
  {
    hide Step, Buffered;
    if events != [] {
      var before, e := events[..|events| - 1], events[|events| - 1];
      assert forall i :: 0 <= i < |before| ==> before[..i] == events[..i];
      NothingIsDropped(interval, files, before);
      StartValid(interval, files);
      RunValid(interval, Start(files), before);
      var s := Run(interval, Start(files), before);
      if e.Logs? && e.level < |files| {
        LogAccepts(interval, s, e.level, e.line, e.canOpen);
      } else if e.Logs? {
        NoSuchLevel(interval, s, e);
      } else {
        OthersAcceptNothing(interval, s, e, Text(1, [10]));
      }
    }
  }

  /**
   * When no write fails and the lines that wait never exceed the 16 MiB, each file is after a flush its old content
   * followed by every line that was logged to it, and stays so.
   */
  lemma FilesAreTheLogUnlessFull(interval: nat, files: seq<seq<Byte>>, events: seq<Event>, canOpen: set<nat>,
          late: seq<Event>, level: nat)
    requires level < |files| && Works(Flushes(canOpen), |files|)
    requires forall i :: 0 <= i < |events| ==> Works(events[i], |files|)
    requires forall i :: 0 <= i < |late| ==> IsLate(late[i])
    requires NeverFull(interval, files, events)
    ensures var after := Run(interval, Run(interval, Start(files), events + [Flushes(canOpen)]), late);
      |after.lanes| == |files| && after.lanes[level].disk == files[level] + Encode(Logged(events, level))
  {
    hide Step, Encode, Logged, NeverFull;
    var s := Run(interval, Start(files), events);
    RunPush(interval, Start(files), events, Flushes(canOpen));
    FlushedFilesAreTheLog(interval, files, events, canOpen, late, level);
    NothingIsDropped(interval, files, events);
    OthersAcceptNothing(interval, s, Flushes(canOpen), Text(1, [10]));
  }

  // ----- when lines are written -----

  /** The levels that wait, with a file that has no chunk on its way, have theirs taken. */
  ghost predicate Written(lanes: seq<Lane>, after: seq<Lane>) {
    && |after| == |lanes|
    && forall i :: 0 <= i < |lanes| ==>
         && (after[i].buffer == [] || (lanes[i].file.Some? && lanes[i].file.value.pending.Some?))
         && (after[i].buffer == [] || after[i] == lanes[i])
  }

  /**
   * What becomes of an accepted line: without an interval its file is flushed at once, above 64 KiB the writes of all
   * levels start, and otherwise the line waits for the timer.
   */
  lemma LineWaitsOrIsWritten(interval: nat, files: seq<seq<Byte>>, events: seq<Event>, level: nat, line: Line,
          canOpen: set<nat>)
    requires level < |files| && Buffered(Run(interval, Start(files), events).lanes) <= 16 * 1024 * 1024
    ensures var s := Run(interval, Start(files), events);
      var after := Run(interval, Start(files), events + [Logs(level, line, canOpen)]);
      && |s.lanes| == |files|
      && var lane := s.lanes[level].(buffer := s.lanes[level].buffer + [line],
           accepted := s.lanes[level].accepted + [line]);
      && (interval == 0 ==> after.lanes == s.lanes[level := FileSinkLane.Flush(lane, level in canOpen)])
      && (interval > 0 && Buffered(s.lanes) + line.length > 64 * 1024 ==>
            Written(s.lanes[level := lane], after.lanes) && (after.timer <==> Buffered(after.lanes) > 0))
      && (interval > 0 && Buffered(s.lanes) + line.length <= 64 * 1024 ==>
            after.lanes == s.lanes[level := lane] && after.timer)
  {
    hide Step, Run, Written, Buffered, FileSinkLane.Flush;
    StartValid(interval, files);
    RunValid(interval, Start(files), events);
    RunPush(interval, Start(files), events, Logs(level, line, canOpen));
    LogWrites(interval, Run(interval, Start(files), events), level, line, canOpen);
  }

  lemma LogWrites(interval: nat, s: Sink, level: nat, line: Line, canOpen: set<nat>)
    requires level < |s.lanes| && s.bufferSize == Buffered(s.lanes) <= 16 * 1024 * 1024
    ensures var after := Step(interval, s, Logs(level, line, canOpen));
      var lane := s.lanes[level].(buffer := s.lanes[level].buffer + [line],
        accepted := s.lanes[level].accepted + [line]);
      && (interval == 0 ==> after.lanes == s.lanes[level := FileSinkLane.Flush(lane, level in canOpen)])
      && (interval > 0 && Buffered(s.lanes) + line.length > 64 * 1024 ==>
            Written(s.lanes[level := lane], after.lanes) && (after.timer <==> Buffered(after.lanes) > 0))
      && (interval > 0 && Buffered(s.lanes) + line.length <= 64 * 1024 ==>
            after.lanes == s.lanes[level := lane] && after.timer)
  {
    hide FileSinkLane.Flush, Buffered, Written, FlushAsync;
    var lanes := s.lanes[level := Append(s.lanes[level], line)];
    FlushAsyncWrites(s.(lanes := lanes, bufferSize := s.bufferSize + line.length), canOpen);
  }

  lemma FlushAsyncWrites(s: Sink, canOpen: set<nat>)
    ensures var after := FlushAsync(s, canOpen);
      Written(s.lanes, after.lanes) && (after.timer <==> Buffered(after.lanes) > 0)
  {
    hide Buffered;
  }

  /** The timer starts the writes of all levels, and is set again exactly when something still waits. */
  lemma TimerWrites(interval: nat, s: Sink, canOpen: set<nat>)
    requires s.timer
    ensures var after := Step(interval, s, TimerFires(canOpen));
      Written(s.lanes, after.lanes) && (after.timer <==> Buffered(after.lanes) > 0)
  {
    hide FlushAsync;
    FlushAsyncWrites(s, canOpen);
  }

  // ----- which lines are lost -----

  /** The lines that were taken and given up, in order. */
  function Lost(batches: seq<Batch>): seq<Line> {
    if batches == [] then []
    else
      var last := batches[|batches| - 1];
      Lost(batches[..|batches| - 1]) + if last.lost then last.lines else []
  }

  function PendingLines(lane: Lane): seq<Line> {
    if lane.file.Some? && lane.file.value.pending.Some? then lane.file.value.pending.value.lines else []
  }

  lemma LostPush(batches: seq<Batch>, batch: Batch)
    ensures Lost(batches + [batch]) == Lost(batches) + if batch.lost then batch.lines else []
  {
    assert (batches + [batch])[..|batches|] == batches;
  }

  /** A file that is open or can be opened loses nothing when its writes start or it is flushed. */
  lemma WritingLosesNothing(lane: Lane, canOpen: bool)
    requires lane.file.Some? || canOpen
    ensures Lost(Begin(lane, canOpen).batches) == Lost(lane.batches)
    ensures Lost(FileSinkLane.Flush(lane, canOpen).batches) == Lost(lane.batches)
  {
    LostPush(lane.batches, Batch(lane.buffer, false));
  }

  lemma FailLosesTheChunk(lane: Lane, write: nat)
    requires Valid(lane) && write < |lane.writes|
    ensures Lost(Fail(lane, write).batches) == Lost(lane.batches)
      + if IsPending(lane, lane.writes[write].chunk) then PendingLines(lane) else []
  {
    hide Encode, Taken, Kept;
    if IsPending(lane, lane.writes[write].chunk) {
      var chunk := lane.file.value.pending.value;
      var own: nat :| Busy(lane, lane.file.value, chunk, own);
      var before := lane.batches[..|lane.batches| - 1];
      assert lane.batches == before + [Batch(chunk.lines, false)];
      assert MarkLastLost(lane.batches) == before + [Batch(chunk.lines, true)];
      LostPush(before, Batch(chunk.lines, false));
      LostPush(before, Batch(chunk.lines, true));
    }
  }

  /**
   * In every run a file that is open, or can be opened, loses lines only when the write of its chunk fails, and then
   * exactly the lines of that chunk.
   */
  lemma OnlyFailedWritesLose(interval: nat, files: seq<seq<Byte>>, events: seq<Event>, e: Event, level: nat)
    requires level < |files|
    requires var s := Run(interval, Start(files), events);
      && level < |s.lanes|
      && (s.lanes[level].file.Some? || ((e.Logs? || e.TimerFires? || e.Flushes?) && level in e.canOpen))
    ensures var s, after := Run(interval, Start(files), events), Run(interval, Start(files), events + [e]);
      && level < |after.lanes|
      && Lost(after.lanes[level].batches) == Lost(s.lanes[level].batches)
           + if e.Fails? && e.level == level && e.write < |s.lanes[level].writes|
               && IsPending(s.lanes[level], s.lanes[level].writes[e.write].chunk) then PendingLines(s.lanes[level])
             else []
  {
    hide Step, Run, Lost, PendingLines, IsPending, Valid;
    StartValid(interval, files);
    RunValid(interval, Start(files), events);
    RunPush(interval, Start(files), events, e);
    StepLoses(interval, Run(interval, Start(files), events), e, level);
  }

  lemma StepLoses(interval: nat, s: Sink, e: Event, level: nat)
    requires level < |s.lanes| && Valid(s.lanes[level])
    requires s.lanes[level].file.Some? || ((e.Logs? || e.TimerFires? || e.Flushes?) && level in e.canOpen)
    ensures Lost(Step(interval, s, e).lanes[level].batches) == Lost(s.lanes[level].batches)
      + if e.Fails? && e.level == level && e.write < |s.lanes[level].writes|
          && IsPending(s.lanes[level], s.lanes[level].writes[e.write].chunk) then PendingLines(s.lanes[level])
        else []
  {
    hide Lost, PendingLines, IsPending, Valid, Begin, FileSinkLane.Flush, Fail, Buffered, FlushAsync;
    var lane := s.lanes[level];
    if e.Logs? {
      LogLoses(interval, s, e, level);
    } else if e.Fails? {
      if e.level == level && e.write < |lane.writes| {
        FailLosesTheChunk(lane, e.write);
      }
    } else if e.TimerFires? || e.Flushes? {
      WritingLosesNothing(lane, level in e.canOpen);
      FlushAsyncLane(s, e.canOpen, level);
    }
  }

  lemma LogLoses(interval: nat, s: Sink, e: Event, level: nat)
    requires e.Logs? && level < |s.lanes| && (s.lanes[level].file.Some? || level in e.canOpen)
    ensures Lost(Step(interval, s, e).lanes[level].batches) == Lost(s.lanes[level].batches)
  {
    hide Lost, Begin, FileSinkLane.Flush, Buffered, FlushAsync;
    if e.level < |s.lanes| {
      var lanes := s.lanes[e.level := Append(s.lanes[e.level], e.line)];
      WritingLosesNothing(lanes[level], level in e.canOpen);
      FlushAsyncLane(s.(lanes := lanes, bufferSize := s.bufferSize + e.line.length), e.canOpen, level);
    }
  }

  // ----- which files are opened -----

  /** A file that is open has been given a line. */
  predicate HasLine(lane: Lane) {
    lane.file.Some? ==> lane.accepted != []
  }

  lemma LinesWereAccepted(lane: Lane)
    requires Valid(lane)
    ensures lane.buffer != [] ==> lane.accepted != []
  {
    hide Encode, FileValid, WritesValid, Taken, Kept;
  }

  lemma WritesHaveLines(lane: Lane, canOpen: bool)
    requires HasLine(lane) && (lane.buffer != [] ==> lane.accepted != [])
    ensures lane.buffer != [] ==> HasLine(Begin(lane, canOpen))
    ensures lane.file.Some? || lane.buffer != [] ==> HasLine(FileSinkLane.Flush(lane, canOpen))
  {
    hide Encode, Store;
  }

  lemma EndsHaveLines(lane: Lane, write: nat, bytes: nat)
    requires HasLine(lane)
    ensures write < |lane.writes| ==> HasLine(Complete(lane, write)) && HasLine(Fail(lane, write))
    ensures CanLand(lane, write, bytes) ==> HasLine(Land(lane, write, bytes))
  {
    hide Encode, Store;
  }

  lemma StepOpens(interval: nat, s: Sink, e: Event, level: nat)
    requires level < |s.lanes| && Valid(s.lanes[level]) && HasLine(s.lanes[level])
    ensures HasLine(Step(interval, s, e).lanes[level])
  {
    hide HasLine, Valid, Append, Begin, FileSinkLane.Flush, Complete, Fail, Land, CanLand, IsPending, Encode, Buffered,
      FlushAsync;
    var lane := s.lanes[level];
    LinesWereAccepted(lane);
    match e
    case Logs(at, line, canOpen) => LogOpens(interval, s, at, line, canOpen, level);
    case TimerFires(canOpen) =>
      WritesHaveLines(lane, level in canOpen);
      FlushAsyncLane(s, canOpen, level);
    case Flushes(canOpen) => WritesHaveLines(lane, level in canOpen);
    case Lands(_, write, bytes) => EndsHaveLines(lane, write, bytes);
    case Completes(_, write) => EndsHaveLines(lane, write, 0);
    case Fails(_, write) => EndsHaveLines(lane, write, 0);
  }

  lemma LogOpens(interval: nat, s: Sink, at: nat, line: Line, canOpen: set<nat>, level: nat)
    requires level < |s.lanes| && HasLine(s.lanes[level])
    requires s.lanes[level].buffer != [] ==> s.lanes[level].accepted != []
    ensures HasLine(Step(interval, s, Logs(at, line, canOpen)).lanes[level])
  {
    hide Begin, FileSinkLane.Flush, Encode, Buffered, FlushAsync;
    if at < |s.lanes| {
      var lanes := s.lanes[at := Append(s.lanes[at], line)];
      WritesHaveLines(lanes[level], level in canOpen);
      FlushAsyncLane(s.(lanes := lanes, bufferSize := s.bufferSize + line.length), canOpen, level);
    }
  }

  /** In every run a file is only opened for a level that has accepted a line. */
  lemma {:induction false} FilesAreOpenedForLines(interval: nat, files: seq<seq<Byte>>, events: seq<Event>, level: nat)
    requires level < |files|
    ensures var s := Run(interval, Start(files), events);
      level < |s.lanes| && (s.lanes[level].file.Some? ==> s.lanes[level].accepted != [])
  {
    hide Step, Valid;
    if events != [] {
      var before := events[..|events| - 1];
      FilesAreOpenedForLines(interval, files, before, level);
      StartValid(interval, files);
      RunValid(interval, Start(files), before);
      StepOpens(interval, Run(interval, Start(files), before), events[|events| - 1], level);
    }
  }

  // ----- when drops are reported -----

  /** The file of some level had a chunk on its way, and has none any more. */
  ghost predicate ChunkEnded(s: Sink, after: Sink) {
    exists i :: 0 <= i < |s.lanes| && i < |after.lanes|
      && LaneEnded(s.lanes[i], after.lanes[i])
  }

  ghost predicate LaneEnded(lane: Lane, after: Lane) {
    && lane.file.Some? && lane.file.value.pending.Some?
    && after.file.Some? && after.file.value.pending.None?
  }

  /**
   * In every run the drops are reported by a flush and when a chunk ends, well or not, and by nothing else. A
   * flush leaves nothing to wait for, and the others leave what waits as it is.
   */
  lemma DropsAreReported(interval: nat, files: seq<seq<Byte>>, events: seq<Event>, e: Event)
    requires !e.Logs? && !e.TimerFires?
    ensures var s, after := Run(interval, Start(files), events), Run(interval, Start(files), events + [e]);
      && (if e.Flushes? || ((e.Completes? || e.Fails?) && ChunkEnded(s, after)) then
            after.dropped == 0 && after.reported == s.reported + s.dropped
          else after.dropped == s.dropped && after.reported == s.reported)
      && (e.Flushes? ==> !after.timer && Buffered(after.lanes) == 0)
      && (!e.Flushes? ==> Buffered(after.lanes) == Buffered(s.lanes) && (s.timer ==> after.timer))
  {
    hide Step, Run, Buffered, ChunkEnded, Valid;
    StartValid(interval, files);
    RunValid(interval, Start(files), events);
    RunPush(interval, Start(files), events, e);
    var s := Run(interval, Start(files), events);
    if e.Flushes? {
      FlushesValid(interval, s, e.canOpen);
      FlushReports(interval, s, e.canOpen);
    } else {
      StepReports(interval, s, e);
      StepValid(interval, s, e);
    }
  }

  lemma FlushReports(interval: nat, s: Sink, canOpen: set<nat>)
    ensures var after := Step(interval, s, Flushes(canOpen));
      && after.lanes == FlushLanes(s.lanes, canOpen)
      && !after.timer && after.dropped == 0 && after.reported == s.reported + s.dropped
  {
    hide FlushLanes, Buffered;
  }

  lemma StepReports(interval: nat, s: Sink, e: Event)
    requires (e.Lands? || e.Completes? || e.Fails?) && forall i :: 0 <= i < |s.lanes| ==> Valid(s.lanes[i])
    ensures var after := Step(interval, s, e);
      && (if !e.Lands? && ChunkEnded(s, after) then after.dropped == 0 && after.reported == s.reported + s.dropped
          else after.dropped == s.dropped && after.reported == s.reported)
      && after.bufferSize == s.bufferSize && (s.timer ==> after.timer)
  {
    hide Buffered, Encode, Store, IsPending, Complete, Fail, ChunkEnded, Valid;
    var after := Step(interval, s, e);
    if !Enabled(s, e) {
      NothingEnded(s);
    } else if !e.Lands? {
      EndsChunk(s.lanes[e.level], e.write);
      OneLane(s, after, e.level, if e.Completes? then Complete(s.lanes[e.level], e.write)
        else Fail(s.lanes[e.level], e.write));
    }
  }

  lemma EndsChunk(lane: Lane, write: nat)
    requires Valid(lane) && write < |lane.writes|
    ensures var w := lane.writes[write];
      && (LaneEnded(lane, Complete(lane, write)) <==>
            IsPending(lane, w.chunk) && w.done + w.landed == |Encode(w.chunk.lines)|)
      && (LaneEnded(lane, Fail(lane, write)) <==> IsPending(lane, w.chunk))
  {
    hide Encode, Taken, Kept;
  }

  lemma NothingEnded(s: Sink)
    ensures !ChunkEnded(s, s)
  {
  }

  lemma OneLane(s: Sink, after: Sink, level: nat, lane: Lane)
    requires level < |s.lanes| && after.lanes == s.lanes[level := lane]
    ensures ChunkEnded(s, after) <==> LaneEnded(s.lanes[level], after.lanes[level])
  {
    if LaneEnded(s.lanes[level], after.lanes[level]) {
      assert s.lanes[level].file.Some?;
    }
  }
}
