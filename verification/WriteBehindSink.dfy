/**
 * The code of the sink. What the sink keeps in maps by level (the buffer and the open file) is an object per level
 * here, together with what the operating system holds for the file; the size of the buffers, the count of dropped lines
 * and the flush timer belong to the sink.
 */
module WriteBehindSink {
  import opened Bytes
  import opened Collections
  import opened FileSinkLane
  import opened FileSink

  /** `writeAll`: the system takes at least a byte of the rest each time. */
  method WriteAll(disk: seq<Byte>, data: seq<Byte>, position: nat) returns (after: seq<Byte>)
    ensures after == Store(disk, position, data)
  {
    hide Store;
    StoreNone();
    after := disk;
    var done := 0;
    while done < |data|
      invariant 0 <= done <= |data|
      invariant after == Store(disk, position, data[..done])
    {
      var written: nat :| 1 <= written <= |data| - done;
      StoreTwice(disk, position, data[..done], data[done..done + written]);
      assert data[..done + written] == data[..done] + data[done..done + written];
      after := Store(after, position + done, data[done..done + written]);
      done := done + written;
    }
    assert data[..done] == data;
  }

  /** The buffer and the file of one level. */
  class LevelFile {
    var lines: Option<seq<Line>>
    var file: Option<LogFile>
    var disk: seq<Byte>
    var writes: seq<Write>
    var chunks: nat
    ghost var start: seq<Byte>
    ghost var accepted: seq<Line>
    ghost var batches: seq<Batch>

    ghost function Model(): Lane
      reads this
    {
      Lane(LinesOf(lines), file, disk, writes, chunks, start, accepted, batches)
    }

    ghost predicate Shaped()
      reads this
    {
      lines != Some([])
    }

    constructor (content: seq<Byte>)
      ensures Shaped() && Model() == Fresh(content)
    {
      lines, file := None, None;
      disk, writes, chunks := content, [], 0;
      start, accepted, batches := content, [], [];
    }

    method Push(line: Line)
      modifies this`lines, this`accepted
      ensures Shaped() && Model() == Append(old(Model()), line)
    {
      lines := Some((if lines.Some? then lines.value else []) + [line]);
      accepted := accepted + [line];
    }

    /** `takeLines` */
    method TakeLines(ghost lost: bool) returns (taken: Option<seq<Line>>)
      requires Shaped()
      modifies this`lines, this`batches
      ensures Shaped() && lines == None && taken == old(lines)
      ensures batches == if taken.None? then old(batches) else old(batches) + [Batch(taken.value, lost)]
    {
      taken := lines;
      if taken.Some? {
        lines := None;
        batches := batches + [Batch(taken.value, lost)];
      }
    }

    /** `getLogFile`, which throws when the file is not open and cannot be opened. */
    method GetLogFile(canOpen: bool) returns (ready: bool)
      modifies this`file
      ensures ready == (old(file).Some? || canOpen)
      ensures Model() == if ready then Opened(old(Model())) else old(Model())
    {
      if file.Some? {
        return true;
      }
      if canOpen {
        file := Some(LogFile(|disk|, None));
      }
      return canOpen;
    }

    /** `startWrite` and the `beginWrite` it guards, with the length of the lines it took. */
    method StartWrite(canOpen: bool) returns (length: nat)
      requires Shaped()
      modifies this
      ensures Shaped() && Model() == Begin(old(Model()), canOpen)
      ensures length == Length(old(Model()).buffer) - Length(Model().buffer)
    {
      hide Encode, Length;
      LengthNone();
      var ready := GetLogFile(canOpen);
      if ready && file.value.pending.Some? {
        return 0;
      }
      var taken := TakeLines(!ready);
      length := Length(LinesOf(taken));
      if ready && taken.Some? {
        var chunk := Chunk(chunks, taken.value, file.value.offset);
        file := Some(LogFile(file.value.offset + |Encode(chunk.lines)|, Some(chunk)));
        writes := writes + [Write(chunk, 0, 0)];
        chunks := chunks + 1;
      }
    }

    /** `flushFile` and the `writeFile` it guards, with the length of the lines it took. */
    method FlushFile(canOpen: bool) returns (length: nat)
      requires Shaped()
      modifies this
      ensures Shaped() && Model() == Flush(old(Model()), canOpen)
      ensures length == Length(old(Model()).buffer)
    {
      hide Encode, Length, Store;
      EncodeNone();
      StoreNone();
      var ready := GetLogFile(canOpen);
      var taken := TakeLines(!ready);
      length := Length(LinesOf(taken));
      if ready {
        if file.value.pending.Some? {
          var chunk := file.value.pending.value;
          file := Some(file.value.(pending := None));
          disk := WriteAll(disk, Encode(chunk.lines), chunk.position);
        }
        if taken.Some? {
          disk := WriteAll(disk, Encode(taken.value), file.value.offset);
          file := Some(file.value.(offset := file.value.offset + |Encode(taken.value)|));
        }
      }
    }

    /** The operating system has stored the first bytes of a write. */
    method OnLanded(write: nat, bytes: nat)
      requires Shaped() && CanLand(Model(), write, bytes)
      modifies this`disk, this`writes
      ensures Shaped() && Model() == Land(old(Model()), write, bytes)
    {
      hide Encode, Store;
      var w := writes[write];
      disk := Store(disk, w.chunk.position + w.done, Encode(w.chunk.lines)[w.done..w.done + bytes]);
      writes := writes[write := w.(landed := bytes)];
    }

    /**
     * The callback of a write, up to the end of its chunk: `failed` is its error, without one it has written what has
     * landed.
     */
    method OnWritten(write: nat, failed: bool) returns (ended: bool)
      requires Shaped() && write < |writes|
      modifies this`file, this`writes, this`batches
      ensures Shaped() && Model() == if failed then Fail(old(Model()), write) else Complete(old(Model()), write)
      ensures var w := old(writes)[write];
        ended == (IsPending(old(Model()), w.chunk) && (failed || w.done + w.landed >= |Encode(w.chunk.lines)|))
    {
      hide Encode;
      var w := writes[write];
      writes := Remove(writes, write);
      if file.None? || file.value.pending.None? || file.value.pending.value.id != w.chunk.id {
        return false;
      }
      if !failed && w.done + w.landed < |Encode(w.chunk.lines)| {
        writes := writes + [Write(w.chunk, w.done + w.landed, 0)];
        return false;
      }
      ended := true;
      file := Some(file.value.(pending := None));
      if failed {
        file := Some(file.value.(offset := w.chunk.position));
        batches := MarkLastLost(batches);
      }
    }
  }

  class LogSink {
    const flushInterval: nat
    const files: seq<LevelFile>
    var bufferSize: int
    var dropped: nat
    var flushTimer: bool
    ghost var reported: nat

    ghost predicate Shaped()
      reads this, files
    {
      && (forall i, j :: 0 <= i < j < |files| ==> files[i] != files[j])
      && (forall i :: 0 <= i < |files| ==> files[i].Shaped())
    }

    ghost function Lanes(): seq<Lane>
      reads this, files
    {
      seq(|files|, i requires 0 <= i < |files| reads files => files[i].Model())
    }

    ghost function Model(): Sink
      reads this, files
    {
      Sink(Lanes(), bufferSize, dropped, reported, flushTimer)
    }

    /** The state between two events. */
    ghost predicate Good()
      reads this, files
    {
      Shaped() && SinkValid(flushInterval, Model())
    }

    constructor (flushInterval: nat, files: seq<LevelFile>)
      requires forall i, j :: 0 <= i < j < |files| ==> files[i] != files[j]
      requires forall i :: 0 <= i < |files| ==> files[i].Shaped() && files[i].Model() == Fresh(files[i].disk)
      ensures Good() && this.files == files
        && Model() == Start(seq(|files|, i requires 0 <= i < |files| reads files => files[i].disk))
    {
      hide SinkValid, Fresh, FileSinkLane.Valid;
      this.flushInterval := flushInterval;
      this.files := files;
      bufferSize, dropped, reported, flushTimer := 0, 0, 0, false;
      new;
      ghost var contents := seq(|files|, i requires 0 <= i < |files| reads files => files[i].disk);
      StartValid(flushInterval, contents);
      assert forall i :: 0 <= i < |files| ==> Lanes()[i] == Fresh(contents[i]);
      assert Lanes() == Start(contents).lanes;
    }

    /** A level that has lines starts a write. */
    method StartLevel(level: nat, canOpen: bool)
      requires Shaped() && level < |files| && bufferSize == Buffered(Lanes())
      modifies this`bufferSize, files[level]
      ensures Shaped() && bufferSize == Buffered(Lanes())
      ensures Lanes() == old(Lanes())[level := Started(old(Lanes())[level], canOpen)]
    {
      hide Begin, Length;
      if files[level].lines.Some? {
        BufferedUpdate(Lanes(), level, Begin(Lanes()[level], canOpen));
        var length := files[level].StartWrite(canOpen);
        bufferSize := bufferSize - length;
        assert Lanes() == old(Lanes())[level := Begin(old(Lanes())[level], canOpen)];
      } else {
        assert Lanes() == old(Lanes())[level := old(Lanes())[level]];
      }
    }

    /** A level that is open or has lines is flushed. */
    method FlushLevel(level: nat, canOpen: bool)
      requires Shaped() && level < |files| && bufferSize == Buffered(Lanes())
      modifies this`bufferSize, files[level]
      ensures Shaped() && bufferSize == Buffered(Lanes())
      ensures Lanes() == old(Lanes())[level := Flushed(old(Lanes())[level], canOpen)]
    {
      hide FileSinkLane.Flush, Length;
      LengthNone();
      if files[level].file.Some? || files[level].lines.Some? {
        FlushEmpties(Lanes()[level], canOpen);
        BufferedUpdate(Lanes(), level, FileSinkLane.Flush(Lanes()[level], canOpen));
        var length := files[level].FlushFile(canOpen);
        bufferSize := bufferSize - length;
        assert Lanes() == old(Lanes())[level := FileSinkLane.Flush(old(Lanes())[level], canOpen)];
      } else {
        assert Lanes() == old(Lanes())[level := old(Lanes())[level]];
      }
    }

    /** `flushAsync`. A level does not depend on another one, so the order of the map does not matter. */
    method FlushAsync(canOpen: set<nat>)
      requires Shaped() && bufferSize == Buffered(Lanes())
      modifies this, files
      ensures Shaped() && Model() == FileSink.FlushAsync(old(Model()), canOpen)
    {
      hide Started, Buffered;
      ghost var before := Lanes();
      flushTimer := false;
      assert Lanes() == before;
      for level := 0 to |files|
        invariant Shaped() && bufferSize == Buffered(Lanes())
        invariant Lanes() == StartedUpTo(before, canOpen, level)
        invariant dropped == old(dropped) && reported == old(reported) && !flushTimer
      {
        StartLevel(level, level in canOpen);
      }
      AllStarted(before, canOpen);
      if bufferSize > 0 {
        flushTimer := true;
        assert Lanes() == StartWrites(before, canOpen);
      }
    }

    method ReportDropped()
      modifies this`dropped, this`reported
      ensures dropped == 0 && reported == old(reported) + old(dropped)
    {
      if dropped == 0 {
        return;
      }
      reported := reported + dropped;
      dropped := 0;
    }

    method FlushFiles(canOpen: set<nat>)
      requires Shaped() && bufferSize == Buffered(Lanes())
      modifies this`bufferSize, files
      ensures Shaped() && bufferSize == Buffered(Lanes())
      ensures Lanes() == FlushLanes(old(Lanes()), canOpen)
    {
      hide Flushed, Buffered;
      for level := 0 to |files|
        invariant Shaped() && bufferSize == Buffered(Lanes())
        invariant Lanes() == FlushedUpTo(old(Lanes()), canOpen, level)
      {
        FlushLevel(level, level in canOpen);
      }
      AllFlushed(old(Lanes()), canOpen);
    }

    /** `flush`: the open files and the buffered levels. */
    method Flush(canOpen: set<nat>)
      requires Good()
      modifies this, files
      ensures Good() && Model() == Step(flushInterval, old(Model()), Flushes(canOpen))
    {
      hide FlushLanes, Buffered, Valid;
      StepValid(flushInterval, Model(), Flushes(canOpen));
      flushTimer := false;
      assert Lanes() == old(Lanes());
      FlushFiles(canOpen);
      ReportDropped();
      assert Lanes() == FlushLanes(old(Lanes()), canOpen);
    }

    method Log(level: nat, line: Line, canOpen: set<nat>)
      requires Good() && level < |files|
      modifies this, files
      ensures Good() && Model() == Step(flushInterval, old(Model()), Logs(level, line, canOpen))
      ensures if old(bufferSize) <= 16 * 1024 * 1024 then
          AcceptedIs(old(Model()), Model(), level, line) && dropped == old(dropped)
        else Lanes() == old(Lanes()) && dropped == old(dropped) + 1
    {
      hide FileSinkLane.Flush, Begin, Append, Buffered, Valid, StartWrites, Started, Length, AcceptedIs;
      StepValid(flushInterval, Model(), Logs(level, line, canOpen));
      LogAccepts(flushInterval, Model(), level, line, canOpen);
      ghost var before := Lanes();
      if bufferSize > LOG_MAX_QUEUE_SIZE {
        dropped := dropped + 1;
        assert Lanes() == before;
        return;
      }
      AppendSize(Model(), level, line);
      files[level].Push(line);
      bufferSize := bufferSize + line.length;
      assert Lanes() == before[level := Append(before[level], line)];
      if flushInterval == 0 {
        FlushLevel(level, level in canOpen);
        FlushedFilled(before[level], line, level in canOpen);
      } else if bufferSize > LOG_MAX_BUFFER_SIZE {
        FlushAsync(canOpen);
      } else {
        flushTimer := true;
        assert Lanes() == before[level := Append(before[level], line)];
      }
    }

    method OnTimer(canOpen: set<nat>)
      requires Good() && flushTimer
      modifies this, files
      ensures Good() && Model() == Step(flushInterval, old(Model()), TimerFires(canOpen))
    {
      hide Begin, Buffered, Valid;
      StepValid(flushInterval, Model(), TimerFires(canOpen));
      FlushAsync(canOpen);
    }

    method OnLanded(level: nat, write: nat, bytes: nat)
      requires Good() && level < |files| && CanLand(files[level].Model(), write, bytes)
      modifies files[level]
      ensures Good() && Model() == Step(flushInterval, old(Model()), Lands(level, write, bytes))
    {
      hide Land, Buffered, Valid;
      StepValid(flushInterval, Model(), Lands(level, write, bytes));
      files[level].OnLanded(write, bytes);
      assert Lanes() == old(Lanes())[level := Land(old(Lanes())[level], write, bytes)];
    }

    /** The callback of a write: `failed` is its error, without one it has written what has landed. */
    method OnWritten(level: nat, write: nat, failed: bool)
      requires Good() && level < |files| && write < |files[level].writes|
      modifies this, files[level]
      ensures Good() && Model() == Step(flushInterval, old(Model()), if failed then Fails(level, write)
        else Completes(level, write))
    {
      hide Complete, Fail, Buffered, Valid, Encode;
      StepValid(flushInterval, Model(), if failed then Fails(level, write) else Completes(level, write));
      ghost var lane := Lanes()[level];
      WriteWithin(lane, write);
      var ended := files[level].OnWritten(write, failed);
      assert Lanes() == old(Lanes())[level := if failed then Fail(lane, write) else Complete(lane, write)];
      if ended {
        ReportDropped();
        if files[level].lines.Some? {
          flushTimer := true;
        }
      }
      assert Lanes() == old(Lanes())[level := if failed then Fail(lane, write) else Complete(lane, write)];
    }
  }

  function Started(lane: Lane, canOpen: bool): Lane {
    if lane.buffer == [] then lane else Begin(lane, canOpen)
  }

  function StartedUpTo(lanes: seq<Lane>, canOpen: set<nat>, n: nat): (r: seq<Lane>)
    requires n <= |lanes|
    ensures |r| == |lanes|
  {
    if n == 0 then lanes
    else
      var before := StartedUpTo(lanes, canOpen, n - 1);
      before[n - 1 := Started(before[n - 1], n - 1 in canOpen)]
  }

  lemma {:induction false} StartedAt(lanes: seq<Lane>, canOpen: set<nat>, n: nat, i: nat)
    requires n <= |lanes| && i < |lanes|
    ensures StartedUpTo(lanes, canOpen, n)[i] == if i < n then Started(lanes[i], i in canOpen) else lanes[i]
  {
    hide Started;
    if n > 0 {
      StartedAt(lanes, canOpen, n - 1, i);
    }
  }

  lemma AllStarted(lanes: seq<Lane>, canOpen: set<nat>)
    ensures StartedUpTo(lanes, canOpen, |lanes|) == StartWrites(lanes, canOpen)
  {
    hide Begin;
    forall i | 0 <= i < |lanes| ensures StartedUpTo(lanes, canOpen, |lanes|)[i] == StartWrites(lanes, canOpen)[i] {
      StartedAt(lanes, canOpen, |lanes|, i);
    }
  }

  function Flushed(lane: Lane, canOpen: bool): Lane {
    if lane.file.None? && lane.buffer == [] then lane else Flush(lane, canOpen)
  }

  function FlushedUpTo(lanes: seq<Lane>, canOpen: set<nat>, n: nat): (r: seq<Lane>)
    requires n <= |lanes|
    ensures |r| == |lanes|
  {
    if n == 0 then lanes
    else
      var before := FlushedUpTo(lanes, canOpen, n - 1);
      before[n - 1 := Flushed(before[n - 1], n - 1 in canOpen)]
  }

  lemma {:induction false} FlushedAt(lanes: seq<Lane>, canOpen: set<nat>, n: nat, i: nat)
    requires n <= |lanes| && i < |lanes|
    ensures FlushedUpTo(lanes, canOpen, n)[i] == if i < n then Flushed(lanes[i], i in canOpen) else lanes[i]
  {
    hide Flushed;
    if n > 0 {
      FlushedAt(lanes, canOpen, n - 1, i);
    }
  }

  lemma AllFlushed(lanes: seq<Lane>, canOpen: set<nat>)
    ensures FlushedUpTo(lanes, canOpen, |lanes|) == FlushLanes(lanes, canOpen)
  {
    hide Flush;
    forall i | 0 <= i < |lanes| ensures FlushedUpTo(lanes, canOpen, |lanes|)[i] == FlushLanes(lanes, canOpen)[i] {
      FlushedAt(lanes, canOpen, |lanes|, i);
    }
  }

  lemma FlushedFilled(lane: Lane, line: Line, canOpen: bool)
    ensures Flushed(Append(lane, line), canOpen) == Flush(Append(lane, line), canOpen)
  {
    hide Flush;
  }

  lemma WriteWithin(lane: Lane, i: nat)
    requires Valid(lane) && i < |lane.writes|
    ensures lane.writes[i].done + lane.writes[i].landed <= |Encode(lane.writes[i].chunk.lines)|
  {
    hide Encode;
  }

  function LinesOf(lines: Option<seq<Line>>): seq<Line> {
    if lines.Some? then lines.value else []
  }

  lemma LengthNone()
    ensures Length([]) == 0
  {
  }

  lemma StoreNone()
    ensures forall disk, position: nat :: Store(disk, position, []) == disk
  {
  }
}
