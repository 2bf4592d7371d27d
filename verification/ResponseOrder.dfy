/**
 * The order of the parts of a streamed response, which decides when a part may go on before it was written, and how
 * many bytes of it can be on their way.
 */
module ResponseOrder {
  import opened Collections
  import opened ResponseStream

  predicate IsIncreasing(parts: seq<nat>) {
    forall i, j :: 0 <= i < j < |parts| ==> parts[i] < parts[j]
  }

  predicate IsSuffix(part: seq<nat>, whole: seq<nat>) {
    |part| <= |whole| && part == whole[|whole| - |part|..]
  }

  function EndOf(s: System): seq<nat> {
    if s.server.ended.Some? then [s.server.ended.value] else []
  }

  /** The parts that the server was given for the client. */
  function Given(s: System): seq<nat> {
    s.server.written + (s.server.writing + EndOf(s))
  }

  /** The parts that were sent, from the first one written to the last one in the channel. */
  function Line(s: System): seq<nat> {
    Given(s) + Parts(s.toServer)
  }

  /** Parts in the order of their numbers, none of which has failed unless there was an abort. */
  ghost predicate IsLine(line: seq<nat>, promises: seq<Promise>, aborted: bool) {
    && IsIncreasing(line)
    && (forall i :: 0 <= i < |line| ==> line[i] < |promises|)
    && (!aborted ==> forall i :: 0 <= i < |line| && line[i] < |promises| ==> promises[line[i]] != Settled(false))
  }

  /** The parts are written in that order, and when the end has come none of them was dropped. */
  ghost predicate LineValid(s: System) {
    && IsLine(Line(s), s.worker.promises, s.worker.aborted)
    && (s.server.ended.Some? ==> s.server.dropped == [])
  }

  /**
   * Before the end the acknowledgements on their way are about the parts written last; after it the parts that wait are
   * the last ones the server was given, with the end.
   */
  ghost predicate TailValid(s: System) {
    !s.worker.aborted ==>
      if s.server.ended.None? then IsSuffix(Abouts(s.toWorker), s.server.written)
        else IsSuffix(s.worker.waiting, Given(s))
  }

  ghost predicate OrderValid(s: System) {
    LineValid(s) && TailValid(s)
  }

  lemma SuffixPush(part: seq<nat>, whole: seq<nat>, more: seq<nat>)
    requires IsSuffix(part, whole)
    ensures IsSuffix(part + more, whole + more)
  {
  }

  lemma SuffixTail(part: seq<nat>, whole: seq<nat>)
    requires IsSuffix(part, whole) && part != []
    ensures IsSuffix(part[1..], whole)
  {
  }

  lemma SentOrder(s: System, isLast: bool, tooBig: bool)
    requires ProtocolValid(s) && OrderValid(s) && s.worker.last.None?
    ensures OrderValid(SendPart(s, isLast, tooBig))
  {
    hide Parts, Abouts, AllLocated, WorkerValid, InOrder, Conserved, AcksValid, AbortValid;
    var after := SendPart(s, isLast, tooBig);
    if !s.worker.aborted && !tooBig {
      PartsPush(s.toServer, Emit(|s.worker.promises|, isLast));
      assert Line(after) == Line(s) + [|s.worker.promises|];
    } else {
      assert Line(after) == Line(s);
    }
  }

  lemma ServerGetOrder(s: System)
    requires ProtocolValid(s) && OrderValid(s) && s.toServer != []
    ensures OrderValid(ServerGet(s))
  {
    hide ProtocolValid, LineValid, TailValid;
    ServerGetLine(s);
    ServerGetTail(s);
  }

  lemma ServerGetTail(s: System)
    requires ProtocolValid(s) && TailValid(s) && s.toServer != []
    ensures TailValid(ServerGet(s))
  {
    hide Abouts, WorkerValid, AllLocated, Conserved, AbortValid, AcksValid;
    var part := s.toServer[0].part;
    AboutsPush(s.toWorker, Ack(part));
    if !s.server.over && s.toServer[0].isLast && !s.worker.aborted {
      var acks, writing := Abouts(s.toWorker), s.server.writing;
      assert Parts(s.toServer) == [part];
      assert s.worker.waiting == acks + (writing + ([] + [part]));
      SuffixPush(acks, s.server.written, writing + [part]);
      assert s.worker.waiting == acks + (writing + [part]);
    }
  }

  lemma ServerGetLine(s: System)
    requires ProtocolValid(s) && LineValid(s) && s.toServer != []
    ensures LineValid(ServerGet(s))
  {
    hide IsLine, Parts, ShapeValid, FlowValid;
    EndIsLast(s);
    var part, rest, ended := s.toServer[0].part, Parts(s.toServer[1..]), s.server.ended;
    var given := s.server.written + s.server.writing;
    PartsTail(s.toServer);
    assert EndOf(s) == [] && Line(s) == given + [part] + rest;
    if s.server.over {
      assert Line(ServerGet(s)) == given + rest;
      OneLess(given, part, rest, s.worker.promises, s.worker.aborted);
    } else {
      assert Line(ServerGet(s)) == given + [part] + rest;
    }
  }

  /** Nothing is in the channel when the end has come, and nothing is dropped before the request is over. */
  lemma EndIsLast(s: System)
    requires ProtocolValid(s) && s.toServer != []
    ensures s.server.ended.None? && (s.server.dropped != [] ==> s.server.over)
  {
  }

  lemma OneLess(before: seq<nat>, part: nat, rest: seq<nat>, promises: seq<Promise>, aborted: bool)
    requires IsLine(before + [part] + rest, promises, aborted)
    ensures IsLine(before + rest, promises, aborted)
  {
    var line, less := before + [part] + rest, before + rest;
    assert forall i :: 0 <= i < |less| ==> less[i] == line[if i < |before| then i else i + 1];
  }

  lemma WriteEndOrder(s: System)
    requires ProtocolValid(s) && OrderValid(s) && s.server.writing != []
    ensures OrderValid(WriteEnd(s))
  {
    hide Parts, Abouts, ShapeValid, FlowValid;
    var after := WriteEnd(s);
    AboutsPush(s.toWorker, Ack(s.server.writing[0]));
    assert s.server.writing == [s.server.writing[0]] + after.server.writing;
    assert Given(after) == Given(s);
    if s.server.ended.None? && !s.worker.aborted {
      SuffixPush(Abouts(s.toWorker), s.server.written, [s.server.writing[0]]);
    }
  }

  lemma AckOrder(s: System)
    requires ProtocolValid(s) && OrderValid(s) && s.toWorker != [] && s.toWorker[0].Ack?
    ensures OrderValid(s.(toWorker := s.toWorker[1..], worker := Acknowledge(s.worker)))
  {
    hide Parts, ShapeValid, FlowValid, IsIncreasing, Abouts, TailValid;
    assert Line(s.(toWorker := s.toWorker[1..], worker := Acknowledge(s.worker))) == Line(s);
    AckTail(s);
  }

  lemma AckTail(s: System)
    requires ProtocolValid(s) && TailValid(s) && s.toWorker != [] && s.toWorker[0].Ack?
    ensures TailValid(s.(toWorker := s.toWorker[1..], worker := Acknowledge(s.worker)))
  {
    hide Parts, EndValid, AllLocated, FlowValid;
    var rest := Abouts(s.toWorker[1..]);
    assert Abouts(s.toWorker) == [s.toWorker[0].about] + rest;
    if !s.worker.aborted {
      if s.server.ended.None? {
        SuffixTail(Abouts(s.toWorker), s.server.written);
      } else if s.worker.waiting != [] {
        SuffixTail(s.worker.waiting, Given(s));
      }
    }
  }

  lemma AbortOrder(s: System)
    requires ProtocolValid(s) && OrderValid(s) && s.toWorker != [] && s.toWorker[0].Abort?
    ensures OrderValid(s.(toWorker := s.toWorker[1..], worker := AbortAll(s.worker)))
  {
    hide Parts, AllLocated, EndValid, IsIncreasing;
    var after := s.(toWorker := s.toWorker[1..], worker := AbortAll(s.worker));
    assert Line(after) == Line(s);
    assert Abouts(s.toWorker) == Abouts(after.toWorker);
  }

  /** The order is not read off the sender, what a message finds, or whether the request is over. */
  lemma SameOrder(s: System, after: System)
    requires OrderValid(s) && after.toServer == s.toServer && Abouts(after.toWorker) == Abouts(s.toWorker)
    requires after.server == s.server.(over := after.server.over)
    requires after.worker == s.worker.(attached := after.worker.attached)
    ensures OrderValid(after)
  {
    hide Parts, Abouts;
    assert Line(after) == Line(s);
  }

  lemma StepOrder(s: System, e: Event, window: Window)
    requires SystemValid(s, window) && OrderValid(s)
    ensures OrderValid(Step(s, e, window))
  {
    hide OrderValid, ProtocolValid, Sum;
    if Enabled(s, e) {
      match e
      case Chunk(size, tooBig) =>
        if size > 0 {
          SentOrder(s, false, tooBig);
          SameOrder(SendPart(s, false, tooBig), Step(s, e, window));
        }
      case SourceEnds(failed) =>
        SentOrder(s, true, false);
        SameOrder(SendPart(s, true, false), Step(s, e, window));
      case Resumes => SameOrder(s, Step(s, e, window));
      case ServerGets => ServerGetOrder(s);
      case WriteEnds => WriteEndOrder(s);
      case WorkerGets =>
        if s.toWorker[0].Ack? {
          AckOrder(s);
        } else {
          AbortOrder(s);
        }
      case CleansUp(finished) =>
        AboutsPush(s.toWorker, Abort);
        SameOrder(s, Step(s, e, window));
      case Returns => SameOrder(s, Step(s, e, window));
    }
  }

  lemma {:induction false} RunOrder(events: seq<Event>, window: Window)
    ensures OrderValid(Run(events, window))
  {
    hide OrderValid, SystemValid, Step;
    if events == [] {
      StartOrder();
    } else {
      RunOrder(events[..|events| - 1], window);
      RunValid(events[..|events| - 1], window);
      StepOrder(Run(events[..|events| - 1], window), events[|events| - 1], window);
    }
  }

  lemma StartOrder()
    ensures OrderValid(START)
  {
  }

  // ----- when a part goes on before it was written -----

  predicate MayGoOn(s: System, part: nat) {
    part < |s.worker.promises| && s.worker.promises[part] == Settled(true) && s.server.ended != Some(part)
  }

  /** Every part but the end that may go on was written. */
  ghost predicate WrittenBefore(s: System) {
    forall part :: 0 <= part < |s.worker.promises| && MayGoOn(s, part) ==> part in s.server.written
  }

  lemma WrittenWhen(s: System)
    requires ProtocolValid(s) && OrderValid(s) && !s.worker.aborted
    requires s.server.ended.None? || Abouts(s.toWorker) != [] || s.server.writing == []
    ensures WrittenBefore(s)
  {
    hide Abouts, IsIncreasing;
    if s.server.ended.Some? {
      if s.server.writing != [] {
        WritingWaits(s);
      }
      assert forall part :: 0 <= part < |s.worker.promises| && s.worker.promises[part] == Settled(true) ==>
        Located(s, part);
    }
  }

  /** While an acknowledgement is on its way, the parts being written wait with the end. */
  lemma WritingWaits(s: System)
    requires ProtocolValid(s) && OrderValid(s) && !s.worker.aborted && s.server.ended.Some? && Abouts(s.toWorker) != []
    ensures forall part :: part in s.server.writing ==> part in s.worker.waiting
  {
    hide Abouts, IsIncreasing, Located;
    var waiting, given, writing := s.worker.waiting, Given(s), s.server.writing;
    forall i | 0 <= i < |writing| ensures writing[i] in waiting {
      assert given[|s.server.written| + i] == writing[i];
      assert waiting[|waiting| - |given| + |s.server.written| + i] == writing[i];
    }
  }

  /** With nothing acknowledged on its way, the end has let the part go on that is written next. */
  lemma OvertakenWhen(s: System)
    requires ProtocolValid(s) && OrderValid(s) && !s.worker.aborted
    requires s.server.ended.Some? && Abouts(s.toWorker) == [] && s.server.writing != []
    ensures !WrittenBefore(s)
  {
    hide Abouts, Located, IsLine, AllLocated, AcksValid, AbortValid;
    var given, at := Given(s), |s.server.written|;
    var part := s.server.writing[0];
    assert Line(s) == given && given[at] == part;
    assert |s.worker.waiting| == |s.server.writing| && |given| == at + |s.server.writing| + 1;
    assert s.worker.promises[part] == Settled(true) by {
      LineMeaning(s, at);
      NotInTail(given, s.worker.waiting, at);
    }
    LineIncreases(s);
    assert given[|given| - 1] == s.server.ended.value && part != s.server.ended.value;
    NotInHead(given, s.server.written);
  }

  lemma LineIncreases(s: System)
    requires LineValid(s)
    ensures IsIncreasing(Line(s))
  {
  }

  lemma LineMeaning(s: System, at: nat)
    requires LineValid(s) && at < |Line(s)| && !s.worker.aborted
    ensures IsIncreasing(Line(s)) && Line(s)[at] < |s.worker.promises|
    ensures s.worker.promises[Line(s)[at]] != Settled(false)
  {
    hide IsIncreasing;
  }

  lemma NotInTail(line: seq<nat>, tail: seq<nat>, at: nat)
    requires IsIncreasing(line) && IsSuffix(tail, line) && at + |tail| < |line|
    ensures line[at] !in tail
  {
    assert forall i :: 0 <= i < |tail| ==> tail[i] == line[|line| - |tail| + i];
  }

  lemma NotInHead(line: seq<nat>, head: seq<nat>)
    requires IsIncreasing(line) && head < line
    ensures line[|head|] !in head
  {
    assert forall i :: 0 <= i < |head| ==> head[i] == line[i];
  }

  /**
   * In every run that is not aborted: every part that may go on was written, exactly when the end has not reached the
   * server, an acknowledgement is still on its way to the worker, or nothing is being written.
   */
  lemma ProceedsAfterItsWriteExactly(events: seq<Event>, window: Window)
    requires !Run(events, window).worker.aborted
    ensures var s := Run(events, window);
      WrittenBefore(s) <==> (s.server.ended.None? || Abouts(s.toWorker) != [] || s.server.writing == [])
  {
    hide Run, Abouts, OrderValid, ProtocolValid, WrittenBefore;
    RunValid(events, window);
    RunOrder(events, window);
    var s := Run(events, window);
    if s.server.ended.None? || Abouts(s.toWorker) != [] || s.server.writing == [] {
      WrittenWhen(s);
    } else {
      OvertakenWhen(s);
    }
  }

  // ----- how many bytes are on their way -----

  /** The sizes of the parts by their numbers; the end has none. */
  ghost function Lengths(events: seq<Event>, window: Window): seq<nat> {
    if events == [] then []
    else
      var before, e := events[..|events| - 1], events[|events| - 1];
      Lengths(before, window) +
        if !Enabled(Run(before, window), e) then []
        else match e
          case Chunk(size, _) => if size > 0 then [size] else []
          case SourceEnds(_) => [0]
          case _ => []
  }

  /** The parts in the channel to the server and the ones it is writing. */
  function OnTheWay(s: System): seq<nat> {
    s.server.writing + Parts(s.toServer)
  }

  function BytesOf(parts: seq<nat>, lengths: seq<nat>): nat {
    if parts == [] then 0 else (if parts[0] < |lengths| then lengths[parts[0]] else 0) + BytesOf(parts[1..], lengths)
  }

  function Largest(lengths: seq<nat>): nat {
    if lengths == [] then 0
    else
      var before, last := Largest(lengths[..|lengths| - 1]), lengths[|lengths| - 1];
      if last > before then last else before
  }

  ghost predicate BytesValid(s: System, lengths: seq<nat>, window: Window) {
    && |lengths| == |s.worker.promises|
    && ((s.sender.phase.Sending? || s.sender.phase.Draining?) && s.sender.awaited <= |lengths| ==>
          s.sender.sizes == lengths[s.sender.awaited..])
    && BytesOf(OnTheWay(s), lengths) <= window.bytes + Largest(lengths)
  }

  lemma {:induction false} BytesConcat(a: seq<nat>, b: seq<nat>, lengths: seq<nat>)
    ensures BytesOf(a + b, lengths) == BytesOf(a, lengths) + BytesOf(b, lengths)
  {
    if a == [] {
      assert a + b == b;
    } else {
      assert (a + b)[1..] == a[1..] + b;
      BytesConcat(a[1..], b, lengths);
    }
  }

  lemma BytesOne(part: nat, lengths: seq<nat>)
    requires part < |lengths|
    ensures BytesOf([part], lengths) == lengths[part]
  {
    assert [part][1..] == [];
  }

  lemma {:induction false} BytesLonger(parts: seq<nat>, lengths: seq<nat>, more: seq<nat>)
    requires forall i :: 0 <= i < |parts| ==> parts[i] < |lengths|
    ensures BytesOf(parts, lengths + more) == BytesOf(parts, lengths)
  {
    if parts != [] {
      BytesLonger(parts[1..], lengths, more);
    }
  }

  lemma {:induction false} SumFromLater(lengths: seq<nat>, i: nat, j: nat)
    requires i <= j <= |lengths|
    ensures Sum(lengths[j..]) <= Sum(lengths[i..])
    decreases j - i
  {
    if i < j {
      SumTail(lengths[i..]);
      assert lengths[i..][1..] == lengths[i + 1..];
      SumFromLater(lengths, i + 1, j);
    }
  }

  /** Parts that are all different have no more bytes than all the parts from the first of them on. */
  lemma {:induction false} BytesWithin(parts: seq<nat>, lengths: seq<nat>, from: nat)
    requires IsIncreasing(parts) && forall i :: 0 <= i < |parts| ==> from <= parts[i] < |lengths|
    requires from <= |lengths|
    ensures BytesOf(parts, lengths) <= Sum(lengths[from..])
  {
    hide Sum;
    if parts == [] {
      SumFromLater(lengths, from, |lengths|);
      SumNone(lengths[|lengths|..]);
    } else {
      var first := parts[0];
      assert forall i :: 0 <= i < |parts[1..]| ==> parts[1..][i] == parts[i + 1];
      BytesWithin(parts[1..], lengths, first + 1);
      SumTail(lengths[first..]);
      assert lengths[first..][1..] == lengths[first + 1..];
      SumFromLater(lengths, from, first);
    }
  }

  lemma SumNone(lengths: seq<nat>)
    requires lengths == []
    ensures Sum(lengths) == 0
  {
  }

  /** As long as parts are sent, those on their way are among the ones the window counts. */
  lemma OnTheWayIsCounted(s: System, lengths: seq<nat>, window: Window)
    requires SystemValid(s, window) && BytesValid(s, lengths, window) && s.sender.phase.Sending? && !s.worker.aborted
    ensures BytesOf(OnTheWay(s), lengths) <= s.sender.inFlight
  {
    hide Sum, Abouts, BytesOf, AllLocated, AcksValid, AbortValid, Conserved, IsFull, Largest;
    var writing, dropped, rest := s.server.writing, s.server.dropped, Parts(s.toServer);
    var acks := Abouts(s.toWorker);
    assert s.worker.waiting == acks + (writing + (dropped + rest));
    BytesConcat(acks, writing + (dropped + rest), lengths);
    BytesConcat(writing, dropped + rest, lengths);
    BytesConcat(dropped, rest, lengths);
    BytesConcat(writing, rest, lengths);
    BytesWithin(s.worker.waiting, lengths, s.sender.awaited);
  }

  lemma LargestPush(lengths: seq<nat>, size: nat)
    ensures Largest(lengths) <= Largest(lengths + [size]) && size <= Largest(lengths + [size])
  {
    assert (lengths + [size])[..|lengths|] == lengths;
  }

  lemma OnTheWayIsSent(s: System)
    requires EndValid(s)
    ensures forall i :: 0 <= i < |OnTheWay(s)| ==> OnTheWay(s)[i] < |s.worker.promises|
  {
    assert forall i :: 0 <= i < |s.server.writing| ==> s.server.writing[i] in s.server.writing;
    assert forall i :: 0 <= i < |s.toServer| ==> Parts(s.toServer)[i] == s.toServer[i].part;
  }

  /** One part more: what is on its way was within the window before. */
  lemma SentBytes(s: System, size: nat, isLast: bool, tooBig: bool, lengths: seq<nat>, window: Window)
    requires SystemValid(s, window) && BytesValid(s, lengths, window) && s.sender.phase.Sending?
    ensures BytesOf(OnTheWay(SendPart(s, isLast, tooBig)), lengths + [size]) <= window.bytes + Largest(lengths + [size])
  {
    hide Sum, BytesOf, Largest, Parts, AllLocated, FlowValid, WorkerValid;
    var after, part := SendPart(s, isLast, tooBig), |s.worker.promises|;
    LargestPush(lengths, size);
    OnTheWayIsSent(s);
    BytesLonger(OnTheWay(s), lengths, [size]);
    if s.worker.aborted || tooBig {
      assert OnTheWay(after) == OnTheWay(s);
    } else {
      OnTheWayIsCounted(s, lengths, window);
      PartsPush(s.toServer, Emit(part, isLast));
      assert OnTheWay(after) == OnTheWay(s) + [part];
      BytesConcat(OnTheWay(s), [part], lengths + [size]);
      BytesOne(part, lengths + [size]);
      WindowHasRoom(s, window);
    }
  }

  lemma WindowHasRoom(s: System, window: Window)
    requires SystemValid(s, window) && s.sender.phase.Sending?
    ensures s.sender.inFlight <= window.bytes
  {
    hide ProtocolValid;
    SumNone([]);
  }

  /** What the server does with the parts puts no more of them on their way. */
  lemma OthersBytes(s: System, e: Event, lengths: seq<nat>, window: Window)
    requires SystemValid(s, window) && BytesValid(s, lengths, window) && !e.Chunk? && !e.SourceEnds?
    ensures BytesValid(Step(s, e, window), lengths, window)
  {
    hide ProtocolValid, Sum, BytesOf, Largest, Parts;
    var after := Step(s, e, window);
    if Enabled(s, e) && e.ServerGets? {
      PartsTail(s.toServer);
      var part, rest := s.toServer[0].part, Parts(s.toServer[1..]);
      BytesConcat(s.server.writing, [part] + rest, lengths);
      BytesConcat([part], rest, lengths);
      BytesConcat(s.server.writing, rest, lengths);
      assert s.server.writing + [part] + rest == s.server.writing + ([part] + rest);
    } else if Enabled(s, e) && e.WriteEnds? {
      BytesConcat([s.server.writing[0]], OnTheWay(after), lengths);
      assert OnTheWay(s) == [s.server.writing[0]] + OnTheWay(after);
    } else {
      assert OnTheWay(after) == OnTheWay(s);
    }
  }

  lemma ChunkBytes(s: System, e: Event, lengths: seq<nat>, window: Window)
    requires SystemValid(s, window) && BytesValid(s, lengths, window) && Enabled(s, e) && e.Chunk? && e.size > 0
    ensures BytesValid(Step(s, e, window), lengths + [e.size], window)
  {
    hide ProtocolValid, Sum, BytesOf, Largest;
    SentBytes(s, e.size, false, e.tooBig, lengths, window);
    assert OnTheWay(Step(s, e, window)) == OnTheWay(SendPart(s, false, e.tooBig));
    assert (lengths + [e.size])[s.sender.awaited..] == lengths[s.sender.awaited..] + [e.size];
  }

  lemma EndBytes(s: System, e: Event, lengths: seq<nat>, window: Window)
    requires SystemValid(s, window) && BytesValid(s, lengths, window) && Enabled(s, e) && e.SourceEnds?
    ensures BytesValid(Step(s, e, window), lengths + [0], window)
  {
    hide ProtocolValid, Sum, BytesOf, Largest;
    SentBytes(s, 0, true, false, lengths, window);
    assert OnTheWay(Step(s, e, window)) == OnTheWay(SendPart(s, true, false));
  }

  lemma {:induction false} RunBytes(events: seq<Event>, window: Window)
    ensures BytesValid(Run(events, window), Lengths(events, window), window)
  {
    hide BytesValid, SystemValid, Step, Enabled;
    if events == [] {
      StartBytes(window);
    } else {
      var before, e := events[..|events| - 1], events[|events| - 1];
      var s, lengths := Run(before, window), Lengths(before, window);
      RunBytes(before, window);
      RunValid(before, window);
      assert lengths + [] == lengths;
      if !Enabled(s, e) || (e.Chunk? && e.size == 0) {
        NothingHappens(s, e, window);
      } else if e.Chunk? {
        ChunkBytes(s, e, lengths, window);
      } else if e.SourceEnds? {
        EndBytes(s, e, lengths, window);
      } else {
        OthersBytes(s, e, lengths, window);
      }
    }
  }

  lemma NothingHappens(s: System, e: Event, window: Window)
    requires !Enabled(s, e) || (e.Chunk? && e.size == 0)
    ensures Step(s, e, window) == s
  {
  }

  lemma StartBytes(window: Window)
    ensures BytesValid(START, [], window)
  {
  }

  /**
   * In every run, aborted or not, the bytes in the channel and being written are within the window and one part more.
   */
  lemma BytesStayWithinTheWindow(events: seq<Event>, window: Window)
    ensures var lengths := Lengths(events, window);
      |lengths| == |Run(events, window).worker.promises|
      && BytesOf(OnTheWay(Run(events, window)), lengths) <= window.bytes + Largest(lengths)
  {
    hide Run, Lengths, BytesOf, Largest;
    RunBytes(events, window);
  }

  // ----- when the source has to wait -----

  /** The parts from this one on, by their sizes, fill the window. */
  ghost predicate Fills(lengths: seq<nat>, from: int, window: Window) {
    && 0 <= from < |lengths|
    && ((window.parts.Some? && |lengths| - from >= window.parts.value) || Sum(lengths[from..]) >= window.bytes)
  }

  /**
   * The source goes on while the parts that were not awaited leave room, and waits for a part which, with the ones
   * behind it, fills the window.
   */
  ghost predicate WaitsValid(s: System, lengths: seq<nat>, window: Window) {
    match s.sender.phase
    case Sending => !Fills(lengths, s.sender.awaited, window)
    case Draining => Fills(lengths, s.sender.awaited - 1, window)
    case _ => true
  }

  lemma DrainWaits(sender: Sender, lengths: seq<nat>, window: Window)
    requires sender.awaited <= |lengths| && sender.sizes == lengths[sender.awaited..]
    requires sender.inFlight == Sum(sender.sizes)
    ensures var after := Drain(sender, window);
      match after.phase
      case Sending => !Fills(lengths, after.awaited, window)
      case Draining => Fills(lengths, after.awaited - 1, window)
      case _ => false
  {
    hide Sum;
  }

  lemma ChunkWaits(s: System, size: nat, tooBig: bool, lengths: seq<nat>, window: Window)
    requires SystemValid(s, window) && BytesValid(s, lengths, window) && s.sender.phase.Sending? && size > 0
    ensures WaitsValid(WriteChunk(s, size, tooBig, window), lengths + [size], window)
  {
    hide Sum, ProtocolValid, Drain, SendPart;
    SumPush(s.sender.sizes, size);
    assert (lengths + [size])[s.sender.awaited..] == lengths[s.sender.awaited..] + [size];
    DrainWaits(s.sender.(sizes := s.sender.sizes + [size], inFlight := s.sender.inFlight + size), lengths + [size],
      window);
  }

  lemma OthersWait(s: System, e: Event, lengths: seq<nat>, window: Window)
    requires SystemValid(s, window) && BytesValid(s, lengths, window) && WaitsValid(s, lengths, window)
    requires !e.Chunk? && !e.SourceEnds?
    ensures WaitsValid(Step(s, e, window), lengths, window)
  {
    hide Sum, ProtocolValid, Drain, Fills, SendPart, Acknowledge, AbortAll;
    if e.Resumes? && CanResume(s) && s.sender.phase.Draining? {
      DrainWaits(s.sender, lengths, window);
    }
  }

  /** In every run. */
  lemma {:induction false} WaitsExactlyWhenFull(events: seq<Event>, window: Window)
    ensures WaitsValid(Run(events, window), Lengths(events, window), window)
  {
    hide BytesValid, SystemValid, WaitsValid, Step, Enabled;
    if events == [] {
      StartWaits(window);
    } else {
      var before, e := events[..|events| - 1], events[|events| - 1];
      var s, lengths := Run(before, window), Lengths(before, window);
      WaitsExactlyWhenFull(before, window);
      RunValid(before, window);
      RunBytes(before, window);
      assert lengths + [] == lengths;
      if !Enabled(s, e) || (e.Chunk? && e.size == 0) {
        NothingHappens(s, e, window);
      } else if e.Chunk? {
        EnabledChunk(s, e, window);
        ChunkWaits(s, e.size, e.tooBig, lengths, window);
      } else if e.SourceEnds? {
        EndWaits(s, e, lengths + [0], window);
      } else {
        OthersWait(s, e, lengths, window);
      }
    }
  }

  lemma EnabledChunk(s: System, e: Event, window: Window)
    requires Enabled(s, e) && e.Chunk?
    ensures s.sender.phase.Sending? && Step(s, e, window) == WriteChunk(s, e.size, e.tooBig, window)
  {
  }

  lemma EndWaits(s: System, e: Event, lengths: seq<nat>, window: Window)
    requires Enabled(s, e) && e.SourceEnds?
    ensures WaitsValid(Step(s, e, window), lengths, window)
  {
  }

  lemma StartWaits(window: Window)
    ensures WaitsValid(START, [], window)
  {
  }
}
