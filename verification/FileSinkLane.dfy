/**
 * One log file of the sink: the lines that wait for it, the chunk on its way to the disk, the bytes on the disk and the
 * writes the operating system still has to do. Every callback of the event loop is one step, and so is the moment at
 * which the operating system stores bytes, so the steps can come in any order.
 */
module FileSinkLane {
  import opened Bytes
  import opened Collections

  /** A text by its length in UTF-16 units and its UTF-8 bytes. */
  datatype Text = Text(length: nat, bytes: seq<Byte>)

  /** A line ends in a newline, so it is never empty, and joining lines joins their bytes. */
  type Line = text: Text | text.length > 0 && |text.bytes| > 0 witness Text(1, [10])

  function Encode(lines: seq<Line>): seq<Byte> {
    if lines == [] then [] else lines[0].bytes + Encode(lines[1..])
  }

  function Length(lines: seq<Line>): nat {
    if lines == [] then 0 else lines[0].length + Length(lines[1..])
  }

  function Padded(disk: seq<Byte>, position: nat): seq<Byte> {
    if |disk| < position then disk + seq(position - |disk|, _ => 0) else disk
  }

  function Splice(disk: seq<Byte>, position: nat, bytes: seq<Byte>): seq<Byte>
    requires position <= |disk|
  {
    disk[..position] + bytes + if position + |bytes| < |disk| then disk[position + |bytes|..] else []
  }

  /** What a positional write leaves on the disk: a gap before it reads as zeros. */
  function Store(disk: seq<Byte>, position: nat, bytes: seq<Byte>): seq<Byte> {
    if bytes == [] then disk else Splice(Padded(disk, position), position, bytes)
  }

  /** The chunk of a file, told apart from others by its id, as the callbacks tell them apart by reference. */
  datatype Chunk = Chunk(id: nat, lines: seq<Line>, position: nat)

  datatype LogFile = LogFile(offset: nat, pending: Option<Chunk>)

  /** A write in flight of the chunk from `done` on, of which the system has stored `landed` bytes so far. */
  datatype Write = Write(chunk: Chunk, done: nat, landed: nat)

  /** The lines of one `takeLines`, and whether they were given up. */
  datatype Batch = Batch(lines: seq<Line>, lost: bool)

  /**
   * `start` is the content of the file before the sink opened it; `accepted` and `batches` are the history: the lines
   * that were let into the buffer, and how they left it.
   */
  datatype Lane = Lane(
    buffer: seq<Line>, file: Option<LogFile>, disk: seq<Byte>, writes: seq<Write>, chunks: nat,
    start: seq<Byte>, accepted: seq<Line>, batches: seq<Batch>)

  function Fresh(content: seq<Byte>): Lane {
    Lane([], None, content, [], 0, content, [], [])
  }

  function Remove<T>(s: seq<T>, i: nat): seq<T>
    requires i < |s|
  {
    s[..i] + s[i + 1..]
  }

  predicate IsPending(lane: Lane, chunk: Chunk) {
    lane.file.Some? && lane.file.value.pending.Some? && lane.file.value.pending.value.id == chunk.id
  }

  // ----- the steps -----

  function Append(lane: Lane, line: Line): (after: Lane)
    ensures after.start == lane.start
  {
    lane.(buffer := lane.buffer + [line], accepted := lane.accepted + [line])
  }

  function Opened(lane: Lane): (after: Lane)
    ensures after.start == lane.start
  {
    if lane.file.Some? then lane else lane.(file := Some(LogFile(|lane.disk|, None)))
  }

  /** The lines of a file that cannot be opened are taken and given up. */
  function GivenUp(lane: Lane): (after: Lane)
    ensures after.start == lane.start
  {
    lane.(buffer := [], batches := if lane.buffer == [] then lane.batches
      else lane.batches + [Batch(lane.buffer, true)])
  }

  /** `startWrite`: one chunk of everything buffered, unless one is on its way. */
  function Begin(lane: Lane, canOpen: bool): (after: Lane)
    ensures after.start == lane.start
  {
    if lane.file.None? && !canOpen then GivenUp(lane)
    else
      var ready := Opened(lane);
      var file := ready.file.value;
      if file.pending.Some? || lane.buffer == [] then ready
      else
        var chunk := Chunk(lane.chunks, lane.buffer, file.offset);
        ready.(buffer := [],
                file := Some(LogFile(file.offset + |Encode(chunk.lines)|, Some(chunk))),
                writes := lane.writes + [Write(chunk, 0, 0)],
                chunks := lane.chunks + 1,
                batches := lane.batches + [Batch(chunk.lines, false)])
  }

  predicate CanLand(lane: Lane, i: nat, n: nat) {
    i < |lane.writes| && lane.writes[i].landed <= n <= |Encode(lane.writes[i].chunk.lines)| - lane.writes[i].done
  }

  /** The system has stored the first `n` bytes of what the write was given. */
  function Land(lane: Lane, i: nat, n: nat): (after: Lane)
    requires CanLand(lane, i, n)
    ensures after.start == lane.start
  {
    var w := lane.writes[i];
    lane.(writes := lane.writes[i := w.(landed := n)],
          disk := Store(lane.disk, w.chunk.position + w.done, Encode(w.chunk.lines)[w.done..w.done + n]))
  }

  /** The callback of a write without an error, of as many bytes as have landed. */
  function Complete(lane: Lane, i: nat): (after: Lane)
    requires i < |lane.writes|
    ensures after.start == lane.start
  {
    var w := lane.writes[i];
    var rest := Remove(lane.writes, i);
    if !IsPending(lane, w.chunk) then lane.(writes := rest)
    else if w.done + w.landed < |Encode(w.chunk.lines)| then
      lane.(writes := rest + [Write(w.chunk, w.done + w.landed, 0)])
    else lane.(writes := rest, file := Some(lane.file.value.(pending := None)))
  }

  function MarkLastLost(batches: seq<Batch>): seq<Batch> {
    if batches == [] then [] else batches[|batches| - 1 := Batch(batches[|batches| - 1].lines, true)]
  }

  /**
   * The callback of a write with an error: the offset goes back to the start of the chunk, whose lines count as lost.
   */
  function Fail(lane: Lane, i: nat): (after: Lane)
    requires i < |lane.writes|
    ensures after.start == lane.start
  {
    var w := lane.writes[i];
    var rest := Remove(lane.writes, i);
    if !IsPending(lane, w.chunk) then lane.(writes := rest)
    else lane.(writes := rest, file := Some(LogFile(w.chunk.position, None)), batches := MarkLastLost(lane.batches))
  }

  /** `flushFile`: stores the pending chunk over whatever landed of it, and the buffered lines behind it. */
  function Flush(lane: Lane, canOpen: bool): (after: Lane)
    ensures after.start == lane.start
  {
    if lane.file.None? && !canOpen then GivenUp(lane)
    else
      var ready := Opened(lane);
      var file := ready.file.value;
      var disk := if file.pending.None? then lane.disk
                  else Store(lane.disk, file.pending.value.position, Encode(file.pending.value.lines));
      ready.(buffer := [],
              file := Some(LogFile(file.offset + |Encode(lane.buffer)|, None)),
              disk := Store(disk, file.offset, Encode(lane.buffer)),
              batches := if lane.buffer == [] then lane.batches else lane.batches + [Batch(lane.buffer, false)])
  }

  // ----- what every step keeps -----

  /** All lines that were taken, in order. */
  function Taken(batches: seq<Batch>): seq<Line> {
    if batches == [] then [] else batches[0].lines + Taken(batches[1..])
  }

  /** The lines of the chunks that were not given up, in order. */
  function Kept(batches: seq<Batch>): seq<Line> {
    if batches == [] then [] else (if batches[0].lost then [] else batches[0].lines) + Kept(batches[1..])
  }

  /** What the file is meant to hold: its old content and the kept lines. */
  function Meant(lane: Lane): seq<Byte> {
    lane.start + Encode(Kept(lane.batches))
  }

  /** A write whose bytes are part of what the first `limit` bytes of the file are meant to be. */
  predicate Harmless(w: Write, meant: seq<Byte>, limit: nat) {
    var data := Encode(w.chunk.lines);
    w.chunk.position + |data| <= limit <= |meant| && meant[w.chunk.position..w.chunk.position + |data|] == data
  }

  /** The first `n` bytes of the disk are what they are meant to be. */
  predicate Holds(disk: seq<Byte>, meant: seq<Byte>, n: nat) {
    n <= |disk| && n <= |meant| && disk[..n] == meant[..n]
  }

  predicate WritesValid(lane: Lane) {
    forall i :: 0 <= i < |lane.writes| ==>
      lane.writes[i].chunk.id < lane.chunks &&
      lane.writes[i].done + lane.writes[i].landed <= |Encode(lane.writes[i].chunk.lines)|
  }

  /** The file has no chunk on its way: all of it is on the disk. */
  predicate Idle(lane: Lane, file: LogFile) {
    && Holds(lane.disk, Meant(lane), file.offset)
    && forall i :: 0 <= i < |lane.writes| ==> Harmless(lane.writes[i], Meant(lane), file.offset)
  }

  /** The chunk on its way: the tail of what is meant, with exactly one write `own` of its own in flight. */
  predicate Busy(lane: Lane, file: LogFile, chunk: Chunk, own: nat) {
    var data := Encode(chunk.lines);
    && own < |lane.writes| && lane.writes[own].chunk == chunk
    && lane.batches != [] && lane.batches[|lane.batches| - 1] == Batch(chunk.lines, false)
    && chunk.position + |data| == file.offset && chunk.lines != []
    && chunk.position <= |Meant(lane)| && Meant(lane)[chunk.position..] == data
    && Holds(lane.disk, Meant(lane), chunk.position + lane.writes[own].done + lane.writes[own].landed)
    && forall i :: 0 <= i < |lane.writes| && i != own ==>
         lane.writes[i].chunk.id != chunk.id && Harmless(lane.writes[i], Meant(lane), chunk.position)
  }

  ghost predicate FileValid(lane: Lane, file: LogFile) {
    && file.offset == |Meant(lane)|
    && match file.pending
       case None => Idle(lane, file)
       case Some(chunk) => exists own: nat :: Busy(lane, file, chunk, own)
  }

  ghost predicate Valid(lane: Lane) {
    && lane.accepted == Taken(lane.batches) + lane.buffer
    && WritesValid(lane)
    && match lane.file
       case None => lane.writes == [] && lane.disk == lane.start && Kept(lane.batches) == []
       case Some(file) => FileValid(lane, file)
  }

  // ----- sequences of bytes -----

  lemma {:induction false} EncodeConcat(a: seq<Line>, b: seq<Line>)
    ensures Encode(a + b) == Encode(a) + Encode(b)
  {
    if a == [] {
      assert a + b == b;
    } else {
      var s := a + b;
      assert s[1..] == a[1..] + b;
      calc {
        Encode(s);
        s[0].bytes + Encode(s[1..]);
        { EncodeConcat(a[1..], b); }
        a[0].bytes + (Encode(a[1..]) + Encode(b));
        Encode(a) + Encode(b);
      }
    }
  }

  lemma EncodeNone()
    ensures Encode([]) == []
  {
  }

  lemma {:induction false} TakenPush(batches: seq<Batch>, batch: Batch)
    ensures Taken(batches + [batch]) == Taken(batches) + batch.lines
  {
    var s := batches + [batch];
    if batches == [] {
      assert s[1..] == [];
    } else {
      assert s[1..] == batches[1..] + [batch];
      calc {
        Taken(s);
        s[0].lines + Taken(s[1..]);
        { TakenPush(batches[1..], batch); }
        batches[0].lines + (Taken(batches[1..]) + batch.lines);
        Taken(batches) + batch.lines;
      }
    }
  }

  lemma {:induction false} KeptPush(batches: seq<Batch>, batch: Batch)
    ensures Kept(batches + [batch]) == Kept(batches) + if batch.lost then [] else batch.lines
  {
    var s := batches + [batch];
    if batches == [] {
      assert s[1..] == [];
    } else {
      assert s[1..] == batches[1..] + [batch];
      var head, last := if batches[0].lost then [] else batches[0].lines, if batch.lost then [] else batch.lines;
      calc {
        Kept(s);
        head + Kept(s[1..]);
        { KeptPush(batches[1..], batch); }
        head + (Kept(batches[1..]) + last);
        Kept(batches) + last;
      }
    }
  }

  lemma HistoryPush(batches: seq<Batch>, batch: Batch)
    ensures Taken(batches + [batch]) == Taken(batches) + batch.lines
    ensures Kept(batches + [batch]) == Kept(batches) + if batch.lost then [] else batch.lines
  {
    TakenPush(batches, batch);
    KeptPush(batches, batch);
  }

  lemma HoldsLess(disk: seq<Byte>, meant: seq<Byte>, n: nat, m: nat)
    requires Holds(disk, meant, n) && m <= n
    ensures Holds(disk, meant, m)
  {
    assert disk[..m] == disk[..n][..m] && meant[..m] == meant[..n][..m];
  }

  /** Storing what is meant to follow a part that is right extends the part. */
  lemma StoreNext(disk: seq<Byte>, meant: seq<Byte>, position: nat, bytes: seq<Byte>)
    requires Holds(disk, meant, position)
    requires position + |bytes| <= |meant| && meant[position..position + |bytes|] == bytes
    ensures Holds(Store(disk, position, bytes), meant, position + |bytes|)
  {
    assert meant[..position + |bytes|] == meant[..position] + bytes;
  }

  /** Storing what is there already changes nothing. */
  lemma StoreAgain(disk: seq<Byte>, meant: seq<Byte>, n: nat, position: nat, bytes: seq<Byte>)
    requires Holds(disk, meant, n)
    requires position + |bytes| <= n && meant[position..position + |bytes|] == bytes
    ensures Store(disk, position, bytes) == disk
  {
    var k := position + |bytes|;
    assert disk[position..k] == disk[..n][position..k] == meant[..n][position..k] == bytes;
    assert disk == disk[..position] + disk[position..k] + disk[k..];
  }

  lemma SpliceTwice(disk: seq<Byte>, position: nat, a: seq<Byte>, b: seq<Byte>)
    requires position <= |disk|
    ensures Splice(Splice(disk, position, a), position + |a|, b) == Splice(disk, position, a + b)
  {
    var once := Splice(disk, position, a);
    var end := position + |a| + |b|;
    assert once[..position + |a|] == disk[..position] + a;
    if end < |disk| {
      assert once[end..] == disk[end..];
    }
  }

  /** Two writes one behind the other are one write of both. */
  lemma StoreTwice(disk: seq<Byte>, position: nat, a: seq<Byte>, b: seq<Byte>)
    ensures Store(Store(disk, position, a), position + |a|, b) == Store(disk, position, a + b)
  {
    hide Splice;
    if a == [] {
      assert a + b == b;
    } else if b == [] {
      assert a + b == a;
    } else {
      SpliceLength(Padded(disk, position), position, a);
      SpliceTwice(Padded(disk, position), position, a, b);
    }
  }

  lemma SpliceLength(disk: seq<Byte>, position: nat, bytes: seq<Byte>)
    requires position <= |disk|
    ensures |Splice(disk, position, bytes)| >= position + |bytes|
  {
  }

  // ----- every step keeps the lane valid -----

  /** What was stored is read back from its place, and everything around it is as it was. */
  lemma StoredIsThere(disk: seq<Byte>, position: nat, bytes: seq<Byte>)
    requires bytes != []
    ensures var after := Store(disk, position, bytes);
      && |after| == (if |disk| < position + |bytes| then position + |bytes| else |disk|)
      && after[position..position + |bytes|] == bytes
      && forall i :: 0 <= i < |after| && (i < position || position + |bytes| <= i) ==>
           after[i] == if i < |disk| then disk[i] else 0
  {
  }

  /** A callback ends its write, and only one that wrote a part of the pending chunk goes on with another. */
  lemma CallbacksEndTheirWrites(lane: Lane, i: nat)
    requires i < |lane.writes|
    ensures var w := lane.writes[i];
      && Fail(lane, i).writes == lane.writes[..i] + lane.writes[i + 1..]
      && Complete(lane, i).writes == lane.writes[..i] + lane.writes[i + 1..]
           + if IsPending(lane, w.chunk) && w.done + w.landed < |Encode(w.chunk.lines)|
             then [Write(w.chunk, w.done + w.landed, 0)] else []
  {
    hide Encode;
  }

  /** The system has the first bytes of what a write was given on the disk. */
  lemma LandedIsThere(lane: Lane, i: nat, n: nat)
    requires CanLand(lane, i, n) && n > 0
    ensures var after, w := Land(lane, i, n), lane.writes[i];
      && after.writes == lane.writes[i := Write(w.chunk, w.done, n)]
      && w.chunk.position + w.done + n <= |after.disk|
      && after.disk[w.chunk.position + w.done..w.chunk.position + w.done + n]
           == Encode(w.chunk.lines)[w.done..w.done + n]
  {
    hide Encode, Store;
    var w := lane.writes[i];
    var bytes := Encode(w.chunk.lines)[w.done..w.done + n];
    assert |bytes| == n;
    StoredIsThere(lane.disk, w.chunk.position + w.done, bytes);
  }

  lemma AppendValid(lane: Lane, line: Line)
    requires Valid(lane)
    ensures Valid(Append(lane, line))
  {
    hide Encode;
    assert Taken(lane.batches) + (lane.buffer + [line]) == Taken(lane.batches) + lane.buffer + [line];
    var after := Append(lane, line);
    SameFile(lane, after);
  }

  /** What a lane promises about its file rests on the file, the disk, the writes and the batches only. */
  lemma SameFile(lane: Lane, after: Lane)
    requires lane.file.Some? ==> FileValid(lane, lane.file.value)
    requires after.file == lane.file && after.disk == lane.disk && after.writes == lane.writes
    requires after.start == lane.start && Kept(after.batches) == Kept(lane.batches)
    requires lane.batches != [] ==>
      after.batches != [] && after.batches[|after.batches| - 1] == lane.batches[|lane.batches| - 1]
    ensures after.file.Some? ==> FileValid(after, after.file.value)
  {
    if lane.file.Some? && lane.file.value.pending.Some? {
      var chunk := lane.file.value.pending.value;
      var own: nat :| Busy(lane, lane.file.value, chunk, own);
      assert Busy(after, after.file.value, chunk, own);
    }
  }

  lemma OpenedValid(lane: Lane)
    requires Valid(lane)
    ensures Valid(Opened(lane)) && Opened(lane).file.Some?
    ensures Opened(lane).accepted == lane.accepted && Opened(lane).batches == lane.batches
  {
    if lane.file.None? {
      assert Meant(lane) == lane.start;
    }
  }

  lemma GivenUpValid(lane: Lane)
    requires Valid(lane) && lane.file.None?
    ensures Valid(GivenUp(lane))
  {
    if lane.buffer != [] {
      HistoryPush(lane.batches, Batch(lane.buffer, true));
    }
  }

  lemma BeginValid(lane: Lane, canOpen: bool)
    requires Valid(lane)
    ensures Valid(Begin(lane, canOpen))
  {
    if lane.file.None? && !canOpen {
      GivenUpValid(lane);
      return;
    }
    OpenedValid(lane);
    var ready := Opened(lane);
    var file := ready.file.value;
    if file.pending.None? && lane.buffer != [] {
      BeginChunkValid(ready, file);
    }
  }

  lemma BeginChunkValid(lane: Lane, file: LogFile)
    requires Valid(lane) && lane.file == Some(file) && file.pending.None? && lane.buffer != []
    ensures Valid(Begin(lane, true))
  {
    hide Encode, Kept, Taken;
    var after := Begin(lane, true);
    var chunk := Chunk(lane.chunks, lane.buffer, file.offset);
    HistoryPush(lane.batches, Batch(chunk.lines, false));
    EncodeConcat(Kept(lane.batches), chunk.lines);
    assert Meant(after) == Meant(lane) + Encode(chunk.lines);
    assert Meant(lane) == Meant(after)[..file.offset];
    forall i | 0 <= i < |lane.writes| ensures Harmless(lane.writes[i], Meant(after), file.offset) {
      HarmlessLonger(lane.writes[i], Meant(lane), Meant(after), file.offset);
    }
    assert Busy(after, after.file.value, chunk, |lane.writes|);
  }

  lemma HarmlessLonger(w: Write, meant: seq<Byte>, longer: seq<Byte>, limit: nat)
    requires Harmless(w, meant, limit) && limit <= |longer| && longer[..limit] == meant[..limit]
    ensures Harmless(w, longer, limit)
  {
    hide Encode;
    var end := w.chunk.position + |Encode(w.chunk.lines)|;
    assert longer[w.chunk.position..end] == longer[..limit][w.chunk.position..end];
    assert meant[w.chunk.position..end] == meant[..limit][w.chunk.position..end];
  }

  /** A write that is not of the chunk on its way lies within a part of the file that is right. */
  lemma StaleLimit(lane: Lane, i: nat) returns (limit: nat)
    requires Valid(lane) && i < |lane.writes| && !IsPending(lane, lane.writes[i].chunk)
    ensures Harmless(lane.writes[i], Meant(lane), limit) && Holds(lane.disk, Meant(lane), limit)
  {
    hide Encode;
    var file := lane.file.value;
    limit := file.offset;
    if file.pending.Some? {
      var own: nat :| Busy(lane, file, file.pending.value, own);
      limit := file.pending.value.position;
      HoldsLess(lane.disk, Meant(lane), limit + lane.writes[own].done + lane.writes[own].landed, limit);
    }
  }

  lemma HarmlessStore(disk: seq<Byte>, w: Write, meant: seq<Byte>, limit: nat, n: nat)
    requires Harmless(w, meant, limit) && Holds(disk, meant, limit) && w.done + n <= |Encode(w.chunk.lines)|
    ensures Store(disk, w.chunk.position + w.done, Encode(w.chunk.lines)[w.done..w.done + n]) == disk
  {
    hide Encode;
    var data := Encode(w.chunk.lines);
    var p := w.chunk.position;
    SliceSlice(meant, p, p + |data|, w.done, w.done + n);
    StoreAgain(disk, meant, limit, p + w.done, data[w.done..w.done + n]);
  }

  /** So it stores bytes that are there already. */
  lemma StaleLand(lane: Lane, i: nat, n: nat)
    requires Valid(lane) && CanLand(lane, i, n) && !IsPending(lane, lane.writes[i].chunk)
    ensures Land(lane, i, n).disk == lane.disk
  {
    hide Encode, Kept, Taken;
    var limit := StaleLimit(lane, i);
    HarmlessStore(lane.disk, lane.writes[i], Meant(lane), limit, n);
  }

  lemma LandValid(lane: Lane, i: nat, n: nat)
    requires Valid(lane) && CanLand(lane, i, n)
    ensures Valid(Land(lane, i, n))
  {
    if IsPending(lane, lane.writes[i].chunk) {
      LandOwnValid(lane, i, n);
    } else {
      LandStaleValid(lane, i, n);
    }
  }

  lemma LandOwnValid(lane: Lane, i: nat, n: nat)
    requires Valid(lane) && CanLand(lane, i, n) && IsPending(lane, lane.writes[i].chunk)
    ensures Valid(Land(lane, i, n))
  {
    hide Encode, Kept, Taken;
    var file := lane.file.value;
    var own: nat :| Busy(lane, file, file.pending.value, own);
    LandBusy(lane.disk, Meant(lane), lane.writes[i], n);
    LandKeepsBusy(lane, file, file.pending.value, own, i, n);
  }

  lemma LandStaleValid(lane: Lane, i: nat, n: nat)
    requires Valid(lane) && CanLand(lane, i, n) && !IsPending(lane, lane.writes[i].chunk)
    ensures Valid(Land(lane, i, n))
  {
    hide Encode, Kept, Taken;
    var file := lane.file.value;
    StaleLand(lane, i, n);
    if file.pending.Some? {
      var own: nat :| Busy(lane, file, file.pending.value, own);
      LandKeepsBusy(lane, file, file.pending.value, own, i, n);
    }
  }

  lemma LandKeepsBusy(lane: Lane, file: LogFile, chunk: Chunk, own: nat, i: nat, n: nat)
    requires Busy(lane, file, chunk, own) && CanLand(lane, i, n)
    requires i == own ==> Holds(Land(lane, i, n).disk, Meant(lane), chunk.position + lane.writes[own].done + n)
    requires i != own ==> Land(lane, i, n).disk == lane.disk
    ensures Busy(Land(lane, i, n), file, chunk, own)
  {
    hide Encode;
  }

  lemma LandBusy(disk: seq<Byte>, meant: seq<Byte>, w: Write, n: nat)
    requires w.done + n <= |Encode(w.chunk.lines)| && w.chunk.position <= |meant|
    requires meant[w.chunk.position..] == Encode(w.chunk.lines)
    requires Holds(disk, meant, w.chunk.position + w.done + w.landed)
    ensures Holds(Store(disk, w.chunk.position + w.done, Encode(w.chunk.lines)[w.done..w.done + n]), meant,
      w.chunk.position + w.done + n)
  {
    hide Encode, Store, Holds;
    var data, from := Encode(w.chunk.lines), w.chunk.position;
    var at := from + w.done;
    HoldsLess(disk, meant, at + w.landed, at);
    SliceSlice(meant, from, |meant|, w.done, w.done + n);
    assert meant[from..|meant|] == meant[from..] == data;
    assert meant[at..at + n] == data[w.done..w.done + n];
    StoreNext(disk, meant, at, data[w.done..w.done + n]);
  }

  /** The callback of a write that is not of the chunk on its way changes nothing else. */
  lemma StaleEnds(lane: Lane, i: nat)
    requires Valid(lane) && i < |lane.writes| && !IsPending(lane, lane.writes[i].chunk)
    ensures Valid(lane.(writes := Remove(lane.writes, i)))
  {
    hide Encode, Kept, Taken;
    var file := lane.file.value;
    if file.pending.Some? {
      var own: nat :| Busy(lane, file, file.pending.value, own);
      StaleEndsBusy(lane, file, file.pending.value, own, i);
    }
  }

  lemma StaleEndsBusy(lane: Lane, file: LogFile, chunk: Chunk, own: nat, i: nat)
    requires Busy(lane, file, chunk, own) && i < |lane.writes| && i != own
    ensures Busy(lane.(writes := Remove(lane.writes, i)), file, chunk, if own < i then own else own - 1)
  {
    hide Encode, Kept, Harmless, Holds;
    var rest := Remove(lane.writes, i);
    forall k | 0 <= k < |rest| ensures rest[k] == lane.writes[if k < i then k else k + 1] {
    }
  }

  lemma CompleteValid(lane: Lane, i: nat)
    requires Valid(lane) && i < |lane.writes|
    ensures Valid(Complete(lane, i))
  {
    hide Encode, Kept, Taken;
    if IsPending(lane, lane.writes[i].chunk) {
      var file := lane.file.value;
      var own: nat :| Busy(lane, file, file.pending.value, own);
      CompleteOwnValid(lane, file, file.pending.value, i);
    } else {
      StaleEnds(lane, i);
    }
  }

  lemma CompleteOwnValid(lane: Lane, file: LogFile, chunk: Chunk, own: nat)
    requires Valid(lane) && lane.file == Some(file) && file.pending == Some(chunk) && Busy(lane, file, chunk, own)
    ensures Valid(Complete(lane, own))
  {
    hide Encode, Kept, Taken;
    var after := Complete(lane, own);
    if lane.writes[own].done + lane.writes[own].landed < |Encode(chunk.lines)| {
      assert Busy(after, file, chunk, |lane.writes| - 1);
    } else {
      WritesBehind(lane, after, own, chunk.position, file.offset);
    }
  }

  /** The writes besides the one of the chunk stay harmless when the limit moves to its end. */
  lemma WritesBehind(lane: Lane, after: Lane, own: nat, position: nat, limit: nat)
    requires own < |lane.writes| && after.writes == Remove(lane.writes, own)
    requires position <= limit <= |Meant(after)| && position <= |Meant(lane)|
    requires Meant(after)[..position] == Meant(lane)[..position]
    requires forall i :: 0 <= i < |lane.writes| && i != own ==> Harmless(lane.writes[i], Meant(lane), position)
    ensures forall i :: 0 <= i < |after.writes| ==> Harmless(after.writes[i], Meant(after), limit)
  {
    hide Encode;
    forall i | 0 <= i < |after.writes| ensures Harmless(after.writes[i], Meant(after), limit) {
      var was := if i < own then i else i + 1;
      assert after.writes[i] == lane.writes[was];
      HarmlessLonger(lane.writes[was], Meant(lane), Meant(after), position);
    }
  }

  lemma FailValid(lane: Lane, i: nat)
    requires Valid(lane) && i < |lane.writes|
    ensures Valid(Fail(lane, i))
  {
    hide Encode, Kept, Taken;
    if IsPending(lane, lane.writes[i].chunk) {
      var file := lane.file.value;
      var own: nat :| Busy(lane, file, file.pending.value, own);
      FailOwnValid(lane, file, file.pending.value, i);
    } else {
      StaleEnds(lane, i);
    }
  }

  lemma FailOwnValid(lane: Lane, file: LogFile, chunk: Chunk, own: nat)
    requires Valid(lane) && lane.file == Some(file) && file.pending == Some(chunk) && Busy(lane, file, chunk, own)
    ensures Valid(Fail(lane, own))
  {
    hide Encode, Kept, Taken;
    var after := Fail(lane, own);
    var before := lane.batches[..|lane.batches| - 1];
    assert lane.batches == before + [Batch(chunk.lines, false)];
    LoseLast(before, chunk.lines);
    EncodeConcat(Kept(before), chunk.lines);
    assert Meant(lane) == Meant(after) + Encode(chunk.lines);
    HoldsLess(lane.disk, Meant(lane), chunk.position + lane.writes[own].done + lane.writes[own].landed, chunk.position);
    assert Meant(after) == Meant(lane)[..chunk.position];
    WritesBehind(lane, after, own, chunk.position, chunk.position);
  }

  lemma LoseLast(before: seq<Batch>, lines: seq<Line>)
    ensures Taken(MarkLastLost(before + [Batch(lines, false)])) == Taken(before + [Batch(lines, false)])
    ensures Kept(MarkLastLost(before + [Batch(lines, false)])) == Kept(before)
    ensures Kept(before + [Batch(lines, false)]) == Kept(before) + lines
  {
    hide Encode;
    HistoryPush(before, Batch(lines, false));
    HistoryPush(before, Batch(lines, true));
    assert MarkLastLost(before + [Batch(lines, false)]) == before + [Batch(lines, true)];
  }

  /** Writing the chunk on its way in its place completes the file, whatever part of it had been stored. */
  lemma SettlePending(lane: Lane)
    requires Valid(lane) && lane.file.Some?
    ensures Holds(Settled(lane), Meant(lane), lane.file.value.offset)
    ensures forall i :: 0 <= i < |lane.writes| ==> Harmless(lane.writes[i], Meant(lane), lane.file.value.offset)
  {
    hide Encode;
    var file := lane.file.value;
    if file.pending.Some? {
      var chunk := file.pending.value;
      var own: nat :| Busy(lane, file, chunk, own);
      HoldsLess(lane.disk, Meant(lane), chunk.position + lane.writes[own].done + lane.writes[own].landed,
        chunk.position);
      assert Meant(lane)[chunk.position..] == Meant(lane)[chunk.position..file.offset];
      StoreNext(lane.disk, Meant(lane), chunk.position, Encode(chunk.lines));
      forall i | 0 <= i < |lane.writes| ensures Harmless(lane.writes[i], Meant(lane), file.offset) {
        if i != own {
          HarmlessLonger(lane.writes[i], Meant(lane), Meant(lane), chunk.position);
        }
      }
    }
  }

  /** The disk with the chunk on its way counted as written. */
  function Settled(lane: Lane): seq<Byte> {
    if lane.file.None? || lane.file.value.pending.None? then lane.disk
    else Store(lane.disk, lane.file.value.pending.value.position, Encode(lane.file.value.pending.value.lines))
  }

  lemma FlushEmpties(lane: Lane, canOpen: bool)
    ensures Flush(lane, canOpen).buffer == []
  {
  }

  lemma FlushValid(lane: Lane, canOpen: bool)
    requires Valid(lane)
    ensures Valid(Flush(lane, canOpen))
  {
    if lane.file.None? && !canOpen {
      GivenUpValid(lane);
    } else {
      OpenedValid(lane);
      FlushOpenedValid(Opened(lane));
    }
  }

  lemma FlushOpenedValid(lane: Lane)
    requires Valid(lane) && lane.file.Some?
    ensures Valid(Flush(lane, true))
  {
    hide Encode, Kept, Taken;
    var after := Flush(lane, true);
    var offset := lane.file.value.offset;
    SettlePending(lane);
    if lane.buffer != [] {
      HistoryPush(lane.batches, Batch(lane.buffer, false));
      EncodeConcat(Kept(lane.batches), lane.buffer);
    } else {
      EncodeNone();
    }
    assert Meant(after) == Meant(lane) + Encode(lane.buffer);
    FlushOnDisk(Settled(lane), Meant(lane), Encode(lane.buffer));
    forall i | 0 <= i < |lane.writes| ensures Harmless(after.writes[i], Meant(after), after.file.value.offset) {
      HarmlessLonger(lane.writes[i], Meant(lane), Meant(after), offset);
    }
  }

  lemma FlushOnDisk(disk: seq<Byte>, meant: seq<Byte>, bytes: seq<Byte>)
    requires Holds(disk, meant, |meant|)
    ensures Holds(Store(disk, |meant|, bytes), meant + bytes, |meant| + |bytes|)
  {
    assert (meant + bytes)[..|meant|] == meant[..|meant|];
    StoreNext(disk, meant + bytes, |meant|, bytes);
  }

  // ----- without a failure nothing is lost -----

  /** No chunk was given up, and the file ends where it is meant to. */
  ghost predicate Calm(lane: Lane) {
    && Valid(lane)
    && (forall i :: 0 <= i < |lane.batches| ==> !lane.batches[i].lost)
    && |lane.disk| <= |Meant(lane)|
  }

  lemma {:induction false} NothingLost(batches: seq<Batch>)
    requires forall i :: 0 <= i < |batches| ==> !batches[i].lost
    ensures Kept(batches) == Taken(batches)
  {
    if batches != [] {
      NothingLost(batches[1..]);
    }
  }

  lemma MeantGrows(lane: Lane, lines: seq<Line>)
    ensures lane.start + Encode(Kept(lane.batches + [Batch(lines, false)])) == Meant(lane) + Encode(lines)
  {
    KeptPush(lane.batches, Batch(lines, false));
    EncodeConcat(Kept(lane.batches), lines);
  }

  lemma BeginCalm(lane: Lane)
    requires Calm(lane)
    ensures Calm(Begin(lane, true))
  {
    hide Encode, Kept, Taken, FileValid;
    BeginValid(lane, true);
    MeantGrows(lane, lane.buffer);
  }

  lemma StoreEnd(disk: seq<Byte>, position: nat, bytes: seq<Byte>, limit: nat)
    requires |disk| <= limit && position + |bytes| <= limit
    ensures |Store(disk, position, bytes)| <= limit
  {
  }

  lemma LandCalm(lane: Lane, i: nat, n: nat)
    requires Calm(lane) && CanLand(lane, i, n)
    ensures Calm(Land(lane, i, n))
  {
    hide Encode, Kept, Taken, Busy;
    LandValid(lane, i, n);
    if IsPending(lane, lane.writes[i].chunk) {
      var w := lane.writes[i];
      PendingEnd(lane, w.chunk);
      StoreEnd(lane.disk, w.chunk.position + w.done, Encode(w.chunk.lines)[w.done..w.done + n], |Meant(lane)|);
    } else {
      StaleLand(lane, i, n);
    }
  }

  lemma PendingEnd(lane: Lane, chunk: Chunk)
    requires Valid(lane) && IsPending(lane, chunk) && exists i ::
      0 <= i < |lane.writes| && lane.writes[i].chunk == chunk
    ensures lane.file.value.pending.value == chunk && chunk.position + |Encode(chunk.lines)| == |Meant(lane)|
  {
    hide Encode, Kept, Taken;
    var own: nat :| Busy(lane, lane.file.value, lane.file.value.pending.value, own);
  }

  lemma CompleteCalm(lane: Lane, i: nat)
    requires Calm(lane) && i < |lane.writes|
    ensures Calm(Complete(lane, i))
  {
    hide Encode, Kept, Taken, FileValid;
    CompleteValid(lane, i);
  }

  lemma FlushCalm(lane: Lane)
    requires Calm(lane)
    ensures Calm(Flush(lane, true))
    ensures Flush(lane, true).disk == lane.start + Encode(lane.accepted)
  {
    hide Encode, Kept, Taken, FileValid, Busy;
    var after := Flush(lane, true);
    FlushValid(lane, true);
    MeantGrows(lane, lane.buffer);
    if lane.buffer == [] {
      EncodeNone();
    }
    assert Meant(after) == Meant(lane) + Encode(lane.buffer);
    SettledEnd(lane);
    StoreEnd(Settled(lane), Opened(lane).file.value.offset, Encode(lane.buffer), |Meant(after)|);
    FlushedFile(after);
  }

  lemma SettledEnd(lane: Lane)
    requires Calm(lane)
    ensures |Settled(lane)| <= |Meant(lane)| && Opened(lane).file.value.offset == |Meant(lane)|
  {
    hide Encode, Kept, Taken;
    OpenedValid(lane);
    if lane.file.Some? && lane.file.value.pending.Some? {
      var chunk := lane.file.value.pending.value;
      var own: nat :| Busy(lane, lane.file.value, chunk, own);
      StoreEnd(lane.disk, chunk.position, Encode(chunk.lines), |Meant(lane)|);
    }
  }

  lemma FlushedFile(lane: Lane)
    requires Calm(lane) && lane.buffer == [] && lane.file.Some? && lane.file.value.pending.None?
    ensures lane.disk == lane.start + Encode(lane.accepted)
  {
    hide Encode, Kept, Taken;
    NothingLost(lane.batches);
    assert lane.accepted == Taken(lane.batches);
    assert lane.disk[..|lane.disk|] == lane.disk && Meant(lane)[..|Meant(lane)|] == Meant(lane);
  }

  lemma FreshCalm(content: seq<Byte>)
    ensures Calm(Fresh(content)) && Fresh(content).accepted == []
  {
  }

  lemma AppendCalm(lane: Lane, line: Line)
    requires Calm(lane)
    ensures Calm(Append(lane, line))
  {
    hide Encode, Kept, Taken, FileValid;
    AppendValid(lane, line);
  }

  lemma UnopenedCalm(lane: Lane)
    requires Calm(lane) && lane.file.None? && lane.buffer == []
    ensures lane.disk == lane.start + Encode(lane.accepted)
  {
    NothingLost(lane.batches);
    EncodeNone();
  }
}
