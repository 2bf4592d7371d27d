/**
 * A streamed response: the worker sends its parts through a channel, the server writes them to the client and
 * acknowledges each once it was written, and the end at once. The worker matches the acknowledgements to its parts by
 * their number only. Both channels deliver in order; every callback is one step.
 */
module ResponseStream {
  import opened Collections

  datatype Promise = Pending | Settled(proceed: bool)

  /** `streamResponse`: what it is doing, and the parts it has not awaited, which are the promises from `awaited` on. */
  datatype Phase = Sending | Draining | Ending | Done(result: bool)

  datatype Sender = Sender(phase: Phase, awaited: nat, sizes: seq<nat>, inFlight: int, completed: bool)

  /** The options of `streamResponse`; no window is an infinite one. */
  datatype Window = Window(parts: Option<nat>, bytes: nat)

  /**
   * The worker's side of the protocol: the parts by number with their promises, the parts that wait for an
   * acknowledgement in order, and the number of the last part once it waits. `attached` is whether a message finds the
   * stream.
   */
  datatype Worker = Worker(promises: seq<Promise>, waiting: seq<nat>, aborted: bool, attached: bool, last: Option<nat>)

  /** A part on its way to the server; the last one has no body. */
  datatype Emit = Emit(part: nat, isLast: bool)

  /** A message to the worker. The part an acknowledgement is about is not sent, it is only there to talk about it. */
  datatype Back = Ack(about: nat) | Abort

  /**
   * The server's side: the parts being written, those whose write callback ran, the end, and those that came when the
   * request was over.
   */
  datatype Server = Server(writing: seq<nat>, written: seq<nat>, ended: Option<nat>, over: bool, dropped: seq<nat>)

  datatype System = System(sender: Sender, worker: Worker, toServer: seq<Emit>, server: Server, toWorker: seq<Back>)

  const START := System(
    Sender(Sending, 0, [], 0, true), Worker([], [], false, true, None), [], Server([], [], None, false, []), [])

  datatype Event =
    /** The source gives a chunk, which may be bigger than a message may be. */
    | Chunk(size: nat, tooBig: bool)
    | SourceEnds(failed: bool)
    /** The promise that is awaited has settled. */
    | Resumes
    | ServerGets
    | WriteEnds
    | WorkerGets
    /** The server is done with the request; unless the response was finished it tells the worker. */
    | CleansUp(finished: bool)
    /** The worker's function has returned, which a stream may outlive. */
    | Returns

  // ----- the worker -----

  /** `sendResponsePart` */
  function SendPart(s: System, isLast: bool, tooBig: bool): System {
    var w, part := s.worker, |s.worker.promises|;
    if w.aborted then s.(worker := w.(promises := w.promises + [Settled(false)]))
    else if tooBig then s.(worker := w.(promises := w.promises + [Settled(false)], attached := true))
    else s.(worker := w.(promises := w.promises + [Pending], waiting := w.waiting + [part], attached := true,
                         last := if isLast then Some(part) else w.last),
            toServer := s.toServer + [Emit(part, isLast)])
  }

  /** `RESPONSE_ACKNOWLEDGE`: the oldest part that waits. The last part lets go of the stream. */
  function Acknowledge(w: Worker): Worker {
    if !w.attached || w.waiting == [] || w.waiting[0] >= |w.promises| then w
    else
      var part := w.waiting[0];
      w.(waiting := w.waiting[1..], promises := w.promises[part := Settled(true)], attached := w.last != Some(part))
  }

  function SettleAll(promises: seq<Promise>, waiting: seq<nat>): (settled: seq<Promise>)
    ensures |settled| == |promises|
  {
    seq(|promises|, i requires 0 <= i < |promises| => if i in waiting then Settled(false) else promises[i])
  }

  /** `abortRequest` */
  function AbortAll(w: Worker): Worker {
    if !w.attached then w
    else w.(aborted := true, waiting := [], promises := SettleAll(w.promises, w.waiting),
            attached := w.last.None? || w.last.value !in w.waiting)
  }

  predicate IsFull(sender: Sender, window: Window) {
    sender.sizes != [] && ((window.parts.Some? && |sender.sizes| >= window.parts.value)
      || sender.inFlight >= window.bytes)
  }

  /** `drain`: while the window is full, the oldest part is taken out of it and awaited. */
  function Drain(sender: Sender, window: Window): Sender {
    if !IsFull(sender, window) then sender.(phase := Sending)
    else sender.(phase := Draining, awaited := sender.awaited + 1, sizes := sender.sizes[1..],
      inFlight := sender.inFlight - sender.sizes[0])
  }

  /** `writeChunk` */
  function WriteChunk(s: System, size: nat, tooBig: bool, window: Window): System {
    if size == 0 then s
    else
      var sent := SendPart(s, false, tooBig);
      sent.(sender := Drain(s.sender.(sizes := s.sender.sizes + [size], inFlight := s.sender.inFlight + size), window))
  }

  function Finish(s: System, failed: bool): System {
    var sent := SendPart(s, true, false);
    sent.(sender := s.sender.(phase := Ending, completed := s.sender.completed && !failed))
  }

  predicate AllSettled(s: System) {
    forall i :: 0 <= i < |s.worker.promises| ==> s.worker.promises[i].Settled?
  }

  /** The results `Promise.all` waits for, which leaves out the parts that were awaited before. */
  predicate AllProceed(s: System) {
    forall i :: s.sender.awaited <= i < |s.worker.promises| ==> s.worker.promises[i] == Settled(true)
  }

  predicate CanResume(s: System) {
    match s.sender.phase
    case Draining => 0 < s.sender.awaited <= |s.worker.promises| && s.worker.promises[s.sender.awaited - 1].Settled?
    case Ending => AllSettled(s)
    case _ => false
  }

  function Resume(s: System, window: Window): System
    requires CanResume(s)
  {
    if s.sender.phase.Ending? then s.(sender := s.sender.(phase := Done(s.sender.completed && AllProceed(s))))
    else if s.worker.promises[s.sender.awaited - 1] == Settled(true) then s.(sender := Drain(s.sender, window))
    else s.(sender := s.sender.(phase := Done(false)))
  }

  // ----- the server -----

  /** `emit`: a part is written and acknowledged in the callback, the end is acknowledged at once. */
  function ServerGet(s: System): System
    requires s.toServer != []
  {
    var emit, server := s.toServer[0], s.server;
    var rest := s.(toServer := s.toServer[1..]);
    if server.over then rest.(server := server.(dropped := server.dropped + [emit.part]))
    else if emit.isLast then rest.(server := server.(ended := Some(emit.part)),
      toWorker := s.toWorker + [Ack(emit.part)])
    else rest.(server := server.(writing := server.writing + [emit.part]))
  }

  function WriteEnd(s: System): System
    requires s.server.writing != []
  {
    var part := s.server.writing[0];
    s.(server := s.server.(writing := s.server.writing[1..], written := s.server.written + [part]),
      toWorker := s.toWorker + [Ack(part)])
  }

  // ----- all together -----

  predicate Enabled(s: System, e: Event) {
    match e
    case Chunk(_, _) => s.sender.phase.Sending?
    case SourceEnds(_) => s.sender.phase.Sending?
    case Resumes => CanResume(s)
    case ServerGets => s.toServer != []
    case WriteEnds => s.server.writing != []
    case WorkerGets => s.toWorker != []
    case CleansUp(finished) => finished ==> s.server.ended.Some? && s.server.writing == []
    case Returns => true
  }

  /** An event that cannot happen changes nothing. */
  function Step(s: System, e: Event, window: Window): System {
    if !Enabled(s, e) then s
    else match e
      case Chunk(size, tooBig) => WriteChunk(s, size, tooBig, window)
      case SourceEnds(failed) => Finish(s, failed)
      case Resumes => Resume(s, window)
      case ServerGets => ServerGet(s)
      case WriteEnds => WriteEnd(s)
      case WorkerGets =>
        s.(toWorker := s.toWorker[1..], worker := if s.toWorker[0].Ack? then Acknowledge(s.worker)
          else AbortAll(s.worker))
      case CleansUp(finished) =>
        s.(server := s.server.(over := true), toWorker := if finished then s.toWorker else s.toWorker + [Abort])
      case Returns => if s.worker.waiting == [] then s.(worker := s.worker.(attached := false)) else s
  }

  function Run(events: seq<Event>, window: Window): System {
    if events == [] then START else Step(Run(events[..|events| - 1], window), events[|events| - 1], window)
  }

  // ----- what every step keeps -----

  function Parts(emits: seq<Emit>): (parts: seq<nat>)
    ensures |parts| == |emits|
  {
    seq(|emits|, i requires 0 <= i < |emits| => emits[i].part)
  }

  /** The parts the acknowledgements on their way are about. */
  function Abouts(back: seq<Back>): seq<nat> {
    if back == [] then [] else (if back[0].Ack? then [back[0].about] else []) + Abouts(back[1..])
  }

  /**
   * The parts that wait are those without a result, in the order they were sent, and then a message finds the stream.
   */
  ghost predicate WorkerValid(w: Worker) {
    && (forall i :: 0 <= i < |w.waiting| ==> w.waiting[i] < |w.promises| && w.promises[w.waiting[i]] == Pending)
    && (forall i, j :: 0 <= i < j < |w.waiting| ==> w.waiting[i] < w.waiting[j])
    && (forall i :: 0 <= i < |w.promises| && w.promises[i] == Pending ==> i in w.waiting)
    && (w.waiting != [] ==> w.attached && !w.aborted)
    && (w.last.Some? ==> w.last.value == |w.promises| - 1)
  }

  /** A part that was sent is in the channel, with the server, or done with. */
  ghost predicate Located(s: System, part: nat) {
    || part in Parts(s.toServer) || part in s.server.dropped || part in s.server.writing || part in s.server.written
    || s.server.ended == Some(part)
  }

  ghost predicate AllLocated(s: System) {
    forall i :: 0 <= i < |s.worker.promises| ==> s.worker.promises[i] == Settled(false) || Located(s, i)
  }

  /** The last part is the last one in the channel, is not written, and ends the response. */
  ghost predicate EndValid(s: System) {
    && (forall i :: 0 <= i < |s.toServer| ==>
          s.toServer[i].part < |s.worker.promises|
            && s.toServer[i].isLast == (s.worker.last == Some(s.toServer[i].part)))
    && (forall i :: 0 <= i < |s.toServer| && s.toServer[i].isLast ==> i == |s.toServer| - 1)
    && (s.server.ended.Some? ==> s.server.ended == s.worker.last && s.toServer == [])
    && (s.worker.last.Some? ==> s.worker.last.value !in s.server.writing && s.worker.last.value !in s.server.written)
    && (forall part :: part in s.server.writing || part in s.server.written ==> part < |s.worker.promises|)
    && (s.server.dropped != [] ==> s.server.over)
  }

  /**
   * Until it is aborted, the worker waits for as many parts as are in the channel, with the server or acknowledged on
   * the way back.
   */
  ghost predicate Conserved(s: System) {
    !s.worker.aborted ==>
      |s.worker.waiting| == |s.toServer| + |s.server.dropped| + |s.server.writing| + |Abouts(s.toWorker)|
  }

  /** Until the end reaches the server the acknowledgements are about the parts they are matched to. */
  ghost predicate InOrder(s: System) {
    !s.worker.aborted && s.server.ended.None? ==>
      s.worker.waiting == Abouts(s.toWorker) + (s.server.writing + (s.server.dropped + Parts(s.toServer)))
  }

  /** An abort finds parts that wait, which then fail, or nothing is on its way any more. */
  ghost predicate AbortValid(s: System) {
    s.worker.aborted ==>
      || (exists i :: 0 <= i < |s.worker.promises| && s.worker.promises[i] == Settled(false))
      || (s.toServer == [] && s.server.dropped == [] && s.server.writing == [])
  }

  /**
   * Acknowledgements come after the write, and until the end reaches the server every part that proceeds was written.
   */
  ghost predicate AcksValid(s: System) {
    && (forall part :: part in Abouts(s.toWorker) ==> part in s.server.written || s.server.ended == Some(part))
    && (s.server.ended.None? ==>
          forall i :: 0 <= i < |s.worker.promises| && s.worker.promises[i] == Settled(true) ==> i in s.server.written)
  }

  ghost predicate ShapeValid(s: System) {
    WorkerValid(s.worker) && EndValid(s) && AllLocated(s)
  }

  ghost predicate FlowValid(s: System) {
    Conserved(s) && InOrder(s) && AbortValid(s) && AcksValid(s)
  }

  ghost predicate ProtocolValid(s: System) {
    ShapeValid(s) && FlowValid(s)
  }

  lemma {:induction false} AboutsPush(back: seq<Back>, b: Back)
    ensures Abouts(back + [b]) == Abouts(back) + if b.Ack? then [b.about] else []
  {
    var all := back + [b];
    if back == [] {
      assert all[1..] == [];
    } else {
      assert all[1..] == back[1..] + [b];
      calc {
        Abouts(all);
        (if back[0].Ack? then [back[0].about] else []) + Abouts(all[1..]);
        { AboutsPush(back[1..], b); }
        Abouts(back) + if b.Ack? then [b.about] else [];
      }
    }
  }

  lemma PartsPush(emits: seq<Emit>, e: Emit)
    ensures Parts(emits + [e]) == Parts(emits) + [e.part]
  {
  }

  lemma PartsTail(emits: seq<Emit>)
    requires emits != []
    ensures Parts(emits) == [emits[0].part] + Parts(emits[1..])
  {
  }

  lemma SendPartValid(s: System, isLast: bool, tooBig: bool)
    requires ProtocolValid(s) && s.worker.last.None?
    ensures ProtocolValid(SendPart(s, isLast, tooBig))
  {
    var after := SendPart(s, isLast, tooBig);
    if s.worker.aborted || tooBig {
      RefusedValid(s, after);
    } else {
      SentValid(s, isLast);
    }
  }

  /** A part that is refused fails at once. */
  lemma RefusedValid(s: System, after: System)
    requires ProtocolValid(s) && s.worker.last.None?
    requires after == s.(worker := s.worker.(promises := s.worker.promises + [Settled(false)],
      attached := after.worker.attached))
    requires s.worker.aborted || after.worker.attached
    ensures ProtocolValid(after)
  {
    hide Parts, Abouts;
    assert after.worker.promises[|s.worker.promises|] == Settled(false);
    LocatedStays(s, after);
  }

  lemma SentValid(s: System, isLast: bool)
    requires ProtocolValid(s) && s.worker.last.None? && !s.worker.aborted
    ensures ProtocolValid(SendPart(s, isLast, false))
  {
    SentShape(s, isLast);
    SentFlow(s, isLast);
  }

  lemma SentShape(s: System, isLast: bool)
    requires ShapeValid(s) && s.worker.last.None? && !s.worker.aborted
    ensures ShapeValid(SendPart(s, isLast, false))
  {
    hide Parts;
    PartsPush(s.toServer, Emit(|s.worker.promises|, isLast));
    LocatedStays(s, SendPart(s, isLast, false));
  }

  lemma SentFlow(s: System, isLast: bool)
    requires ProtocolValid(s) && s.worker.last.None? && !s.worker.aborted
    ensures FlowValid(SendPart(s, isLast, false))
  {
    hide Parts, Abouts, AllLocated;
    PartsPush(s.toServer, Emit(|s.worker.promises|, isLast));
    Assoc4(Abouts(s.toWorker), s.server.writing, s.server.dropped, Parts(s.toServer), [|s.worker.promises|]);
  }

  lemma Assoc4(a: seq<nat>, b: seq<nat>, c: seq<nat>, d: seq<nat>, e: seq<nat>)
    ensures a + (b + (c + d)) + e == a + (b + (c + (d + e)))
  {
  }

  lemma Assoc3(a: seq<nat>, b: seq<nat>, c: seq<nat>, d: seq<nat>)
    ensures a + (b + (c + d)) == a + ((b + c) + d)
    ensures a + (b + (c + d)) == (a + b) + (c + d)
  {
    assert b + (c + d) == (b + c) + d;
  }

  lemma LocatedStays(s: System, after: System)
    requires AllLocated(s) && after.server == s.server
    requires forall part :: part in Parts(s.toServer) ==> part in Parts(after.toServer)
    ensures forall i :: 0 <= i < |s.worker.promises| ==> s.worker.promises[i] == Settled(false) || Located(after, i)
  {
    hide Parts;
  }

  lemma ServerGetValid(s: System)
    requires ProtocolValid(s) && s.toServer != []
    ensures ProtocolValid(ServerGet(s))
  {
    ServerGetShape(s);
    ServerGetFlow(s);
  }

  lemma ServerGetShape(s: System)
    requires ShapeValid(s) && s.toServer != []
    ensures ShapeValid(ServerGet(s))
  {
    hide Parts;
    var after := ServerGet(s);
    PartsTail(s.toServer);
    forall i | 0 <= i < |s.worker.promises| && Located(s, i) ensures Located(after, i) {
    }
  }

  lemma ServerGetFlow(s: System)
    requires ProtocolValid(s) && s.toServer != []
    ensures FlowValid(ServerGet(s))
  {
    hide Parts, Abouts, WorkerValid, AllLocated;
    var part, rest := s.toServer[0].part, Parts(s.toServer[1..]);
    PartsTail(s.toServer);
    AboutsPush(s.toWorker, Ack(part));
    var acks, writing, dropped := Abouts(s.toWorker), s.server.writing, s.server.dropped;
    if s.server.over {
      Assoc3(writing, dropped, [part], rest);
    } else {
      assert dropped + ([part] + rest) == [part] + (dropped + rest);
      Assoc3(acks, writing, [part], dropped + rest);
    }
  }

  lemma WriteEndValid(s: System)
    requires ProtocolValid(s) && s.server.writing != []
    ensures ProtocolValid(WriteEnd(s))
  {
    WriteEndShape(s);
    WriteEndFlow(s);
  }

  lemma WriteEndShape(s: System)
    requires ShapeValid(s) && s.server.writing != []
    ensures ShapeValid(WriteEnd(s))
  {
    hide Parts;
    var after := WriteEnd(s);
    assert s.server.writing == [s.server.writing[0]] + after.server.writing;
    assert forall part :: part in after.server.writing || part in after.server.written ==>
      part in s.server.writing || part in s.server.written;
    forall i | 0 <= i < |s.worker.promises| && Located(s, i) ensures Located(after, i) {
    }
  }

  lemma WriteEndFlow(s: System)
    requires ProtocolValid(s) && s.server.writing != []
    ensures FlowValid(WriteEnd(s))
  {
    hide Parts, Abouts, WorkerValid, AllLocated, EndValid;
    var part, writing := s.server.writing[0], s.server.writing[1..];
    AboutsPush(s.toWorker, Ack(part));
    assert s.server.writing == [part] + writing;
    var behind := s.server.dropped + Parts(s.toServer);
    assert ([part] + writing) + behind == [part] + (writing + behind);
    assert Abouts(s.toWorker) + ([part] + (writing + behind)) == (Abouts(s.toWorker) + [part]) + (writing + behind);
  }

  lemma WorkerGetAckValid(s: System)
    requires ProtocolValid(s) && s.toWorker != [] && s.toWorker[0].Ack?
    ensures ProtocolValid(s.(toWorker := s.toWorker[1..], worker := Acknowledge(s.worker)))
  {
    hide ShapeValid, FlowValid, Acknowledge;
    AckShape(s);
    AckFlow(s);
  }

  lemma AckShape(s: System)
    requires ShapeValid(s) && s.toWorker != []
    ensures ShapeValid(s.(toWorker := s.toWorker[1..], worker := Acknowledge(s.worker)))
  {
    hide Parts;
    AcknowledgeValid(s.worker);
    LocatedStays(s, s.(toWorker := s.toWorker[1..], worker := Acknowledge(s.worker)));
  }

  lemma AckFlow(s: System)
    requires ProtocolValid(s) && s.toWorker != [] && s.toWorker[0].Ack?
    ensures FlowValid(s.(toWorker := s.toWorker[1..], worker := Acknowledge(s.worker)))
  {
    hide Parts, AllLocated, EndValid;
    var about, rest := s.toWorker[0].about, Abouts(s.toWorker[1..]);
    assert Abouts(s.toWorker) == [about] + rest;
    var behind := s.server.writing + (s.server.dropped + Parts(s.toServer));
    assert ([about] + rest) + behind == [about] + (rest + behind);
  }

  lemma AcknowledgeValid(w: Worker)
    requires WorkerValid(w)
    ensures WorkerValid(Acknowledge(w))
  {
    if |w.waiting| > 1 {
      assert w.waiting[0] < w.waiting[1] < |w.promises|;
    }
  }

  lemma WorkerGetAbortValid(s: System)
    requires ProtocolValid(s) && s.toWorker != [] && s.toWorker[0].Abort?
    ensures ProtocolValid(s.(toWorker := s.toWorker[1..], worker := AbortAll(s.worker)))
  {
    hide ShapeValid, FlowValid, AbortAll;
    AbortShape(s);
    AbortFlow(s);
  }

  lemma AbortShape(s: System)
    requires ShapeValid(s) && s.toWorker != []
    ensures ShapeValid(s.(toWorker := s.toWorker[1..], worker := AbortAll(s.worker)))
  {
    hide Parts;
    AbortAllValid(s.worker);
    LocatedStays(s, s.(toWorker := s.toWorker[1..], worker := AbortAll(s.worker)));
  }

  lemma AbortFlow(s: System)
    requires ProtocolValid(s) && s.toWorker != [] && s.toWorker[0].Abort?
    ensures FlowValid(s.(toWorker := s.toWorker[1..], worker := AbortAll(s.worker)))
  {
    hide Parts, AllLocated, EndValid;
    var after := s.(toWorker := s.toWorker[1..], worker := AbortAll(s.worker));
    assert Abouts(s.toWorker) == Abouts(after.toWorker);
    AbortAllValid(s.worker);
    if s.worker.attached && s.worker.waiting != [] {
      assert after.worker.promises[s.worker.waiting[0]] == Settled(false);
    }
  }

  lemma AbortAllValid(w: Worker)
    requires WorkerValid(w)
    ensures WorkerValid(AbortAll(w))
    ensures forall i :: 0 <= i < |w.promises| && AbortAll(w).promises[i] == Settled(true) ==>
      w.promises[i] == Settled(true)
  {
  }

  // ----- the sender -----

  /** How many parts may be on their way: a part is sent whatever the window when there is none. */
  function Limit(window: Window): nat
    requires window.parts.Some?
  {
    if window.parts.value == 0 then 1 else window.parts.value
  }

  /** Up to `k`, every part has proceeded. */
  predicate ProceededTo(s: System, k: int) {
    k <= |s.worker.promises| && forall i :: 0 <= i < k ==> s.worker.promises[i] == Settled(true)
  }

  ghost predicate SenderValid(s: System, window: Window) {
    var d, n := s.sender, |s.worker.promises|;
    && d.awaited <= n
    && d.inFlight == Sum(d.sizes)
    && match d.phase
       case Sending => s.worker.last.None? && |d.sizes| == n - d.awaited && !IsFull(d, window)
         && ProceededTo(s, d.awaited)
       case Draining =>
         && s.worker.last.None? && |d.sizes| == n - d.awaited && 0 < d.awaited && ProceededTo(s, d.awaited - 1)
         && (window.parts.Some? ==> |d.sizes| < Limit(window))
       case Ending => |d.sizes| == n - d.awaited - 1 && ProceededTo(s, d.awaited)
       case Done(true) => d.completed && 0 < n && ProceededTo(s, n)
       case Done(false) => true
  }

  /** The parts on their way to the client. */
  predicate WithinWindow(s: System, window: Window) {
    window.parts.Some? ==> |s.toServer| + |s.server.writing| <= Limit(window)
  }

  ghost predicate SystemValid(s: System, window: Window) {
    ProtocolValid(s) && SenderValid(s, window) && WithinWindow(s, window)
  }

  /** A promise that has settled stays as it is, and no part is forgotten. */
  predicate SettledStays(s: System, after: System) {
    && |s.worker.promises| <= |after.worker.promises|
    && forall i :: 0 <= i < |s.worker.promises| && s.worker.promises[i].Settled? ==>
      after.worker.promises[i] == s.worker.promises[i]
  }

  lemma SettlesOnce(s: System, e: Event, window: Window)
    requires WorkerValid(s.worker)
    ensures SettledStays(s, Step(s, e, window))
  {
  }

  /** Parts that wait are all behind the ones that have settled. */
  lemma {:induction false} WaitingBehind(w: Worker, k: nat, i: nat)
    requires WorkerValid(w) && k <= |w.promises| && i < |w.waiting|
    requires forall j :: 0 <= j < k ==> w.promises[j].Settled?
    ensures k + i <= w.waiting[i]
  {
    if i > 0 {
      WaitingBehind(w, k, i - 1);
      assert w.waiting[i - 1] < w.waiting[i];
    } else {
      assert w.promises[w.waiting[0]] == Pending;
    }
  }

  lemma WaitingFew(w: Worker, k: nat)
    requires WorkerValid(w) && k <= |w.promises| && forall j :: 0 <= j < k ==> w.promises[j].Settled?
    ensures |w.waiting| <= |w.promises| - k
  {
    if w.waiting != [] {
      WaitingBehind(w, k, |w.waiting| - 1);
    }
  }

  lemma SendWithin(s: System, isLast: bool, tooBig: bool, window: Window)
    requires SystemValid(s, window) && s.sender.phase.Sending?
    ensures WithinWindow(SendPart(s, isLast, tooBig), window)
    ensures ProceededTo(SendPart(s, isLast, tooBig), s.sender.awaited)
  {
    var after := SendPart(s, isLast, tooBig);
    SendPartValid(s, isLast, tooBig);
    WaitingFew(after.worker, s.sender.awaited);
  }

  lemma SumTail(sizes: seq<nat>)
    requires sizes != []
    ensures Sum(sizes[1..]) == Sum(sizes) - sizes[0]
  {
  }

  lemma SumPush(sizes: seq<nat>, size: nat)
    ensures Sum(sizes + [size]) == Sum(sizes) + size
  {
    SumConcat(sizes, [size]);
    assert [size][1..] == [];
  }

  lemma ChunkValid(s: System, size: nat, tooBig: bool, window: Window)
    requires SystemValid(s, window) && s.sender.phase.Sending?
    ensures SystemValid(WriteChunk(s, size, tooBig, window), window)
  {
    hide ProtocolValid, Sum;
    if size > 0 {
      SendPartValid(s, false, tooBig);
      SendWithin(s, false, tooBig, window);
      SumPush(s.sender.sizes, size);
      SumTail(s.sender.sizes + [size]);
      SenderMoves(SendPart(s, false, tooBig), WriteChunk(s, size, tooBig, window));
    }
  }

  /** The protocol does not look at the sender. */
  lemma SenderMoves(s: System, after: System)
    requires ProtocolValid(s) && after == s.(sender := after.sender)
    ensures ProtocolValid(after)
  {
    hide Parts, Abouts;
    LocatedStays(s, after);
  }

  lemma FinishValid(s: System, failed: bool, window: Window)
    requires SystemValid(s, window) && s.sender.phase.Sending?
    ensures SystemValid(Finish(s, failed), window)
  {
    hide ProtocolValid, Sum;
    SendPartValid(s, true, false);
    SendWithin(s, true, false, window);
    SenderMoves(SendPart(s, true, false), Finish(s, failed));
  }

  lemma ResumeValid(s: System, window: Window)
    requires SystemValid(s, window) && CanResume(s)
    ensures SystemValid(Resume(s, window), window)
  {
    hide ProtocolValid, Sum;
    if s.sender.sizes != [] {
      SumTail(s.sender.sizes);
    }
    SenderMoves(s, Resume(s, window));
  }

  /** The other steps leave the sender alone. */
  lemma OthersValid(s: System, e: Event, window: Window)
    requires SystemValid(s, window) && !e.Chunk? && !e.SourceEnds? && !e.Resumes? && Enabled(s, e)
    ensures SystemValid(Step(s, e, window), window)
  {
    hide ProtocolValid, Sum, IsFull;
    SettlesOnce(s, e, window) by { ProtocolShape(s); }
    OthersKeepProtocol(s, e, window);
  }

  lemma ProtocolShape(s: System)
    requires ProtocolValid(s)
    ensures WorkerValid(s.worker)
  {
  }

  lemma OthersKeepProtocol(s: System, e: Event, window: Window)
    requires ProtocolValid(s) && !e.Chunk? && !e.SourceEnds? && !e.Resumes? && Enabled(s, e)
    ensures ProtocolValid(Step(s, e, window))
  {
    match e
    case ServerGets => ServerGetValid(s);
    case WriteEnds => WriteEndValid(s);
    case WorkerGets =>
      if s.toWorker[0].Ack? {
        WorkerGetAckValid(s);
      } else {
        WorkerGetAbortValid(s);
      }
    case CleansUp(finished) => CleanUpValid(s, finished);
    case Returns =>
      if s.worker.waiting == [] {
        ReturnValid(s);
      }
  }

  lemma CleanUpValid(s: System, finished: bool)
    requires ProtocolValid(s)
    ensures ProtocolValid(s.(server := s.server.(over := true), toWorker := if finished then s.toWorker
      else s.toWorker + [Abort]))
  {
    hide Parts, Abouts;
    AboutsPush(s.toWorker, Abort);
    var after := s.(server := s.server.(over := true), toWorker := if finished then s.toWorker
      else s.toWorker + [Abort]);
    assert forall i :: 0 <= i < |s.worker.promises| && Located(s, i) ==> Located(after, i);
  }

  lemma ReturnValid(s: System)
    requires ProtocolValid(s) && s.worker.waiting == []
    ensures ProtocolValid(s.(worker := s.worker.(attached := false)))
  {
    hide Parts, Abouts;
    LocatedStays(s, s.(worker := s.worker.(attached := false)));
  }

  lemma StepValid(s: System, e: Event, window: Window)
    requires SystemValid(s, window)
    ensures SystemValid(Step(s, e, window), window)
  {
    hide SystemValid, WriteChunk, Finish, Resume;
    if Enabled(s, e) {
      match e
      case Chunk(size, tooBig) => ChunkValid(s, size, tooBig, window);
      case SourceEnds(failed) => FinishValid(s, failed, window);
      case Resumes => ResumeValid(s, window);
      case _ => OthersValid(s, e, window);
    }
  }

  lemma StartValid(window: Window)
    ensures SystemValid(START, window)
  {
  }

  lemma {:induction false} RunValid(events: seq<Event>, window: Window)
    ensures SystemValid(Run(events, window), window)
  {
    hide SystemValid, Step;
    if events == [] {
      StartValid(window);
    } else {
      RunValid(events[..|events| - 1], window);
      StepValid(Run(events[..|events| - 1], window), events[|events| - 1], window);
    }
  }

  // ----- whole runs -----

  /** However a run goes on, a promise that has settled stays as it is, and no part is forgotten. */
  lemma {:induction false} SettledPromisesStay(events: seq<Event>, more: seq<Event>, window: Window)
    ensures SettledStays(Run(events, window), Run(events + more, window))
    decreases |more|
  {
    hide SystemValid, Step;
    if more == [] {
      assert events + more == events;
    } else {
      var fewer := more[..|more| - 1];
      assert (events + more)[..|events + more| - 1] == events + fewer;
      SettledPromisesStay(events, fewer, window);
      RunValid(events + fewer, window);
      WorkerIsValid(Run(events + fewer, window), window);
      SettlesOnce(Run(events + fewer, window), more[|more| - 1], window);
    }
  }

  lemma WorkerIsValid(s: System, window: Window)
    requires SystemValid(s, window)
    ensures WorkerValid(s.worker)
  {
  }

  /**
   * In every run, until it is aborted, the worker waits for exactly as many parts as there are messages in the channel,
   * parts with the server and acknowledgements on their way back; and the parts on their way to the client stay within
   * the window.
   */
  lemma PartsAreConserved(events: seq<Event>, window: Window)
    ensures var s := Run(events, window);
      && Conserved(s)
      && WithinWindow(s, window)
      && s.sender.inFlight == Sum(s.sender.sizes)
      && (s.sender.phase.Sending? ==> s.sender.sizes == [] || s.sender.inFlight < window.bytes)
  {
    hide Abouts;
    RunValid(events, window);
  }

  /** The source failed at this event, which is when its parts are still sent. */
  predicate FailsAt(events: seq<Event>, i: nat, window: Window) {
    i < |events| && events[i] == SourceEnds(true) && Run(events[..i], window).sender.phase.Sending?
  }

  ghost predicate SourceFailed(events: seq<Event>, window: Window) {
    exists i: nat :: FailsAt(events, i, window)
  }

  lemma {:induction false} CompletedUnlessFailed(events: seq<Event>, window: Window)
    ensures Run(events, window).sender.completed <==> !SourceFailed(events, window)
  {
    hide Step;
    if events == [] {
      RunNone(window);
    } else {
      var before, e := events[..|events| - 1], events[|events| - 1];
      CompletedUnlessFailed(before, window);
      FailedBefore(events, window);
      StepCompleted(Run(before, window), e, window);
    }
  }

  lemma FailedBefore(events: seq<Event>, window: Window)
    requires events != []
    ensures var before := events[..|events| - 1];
      SourceFailed(events, window) <==> SourceFailed(before, window) || FailsAt(events, |before|, window)
  {
    hide Run;
    var before := events[..|events| - 1];
    forall i: nat | i < |before| ensures FailsAt(events, i, window) == FailsAt(before, i, window) {
      assert events[..i] == before[..i];
    }
  }

  lemma StepCompleted(s: System, e: Event, window: Window)
    ensures Step(s, e, window).sender.completed <==>
      s.sender.completed && !(e == SourceEnds(true) && s.sender.phase.Sending?)
  {
  }

  // ----- when the worker lets go of the stream -----

  /** The last part was sent, and has a result. */
  predicate LastSettled(w: Worker) {
    w.last.Some? && w.last.value < |w.promises| && w.promises[w.last.value].Settled?
  }

  ghost predicate LetsGo(w: Worker, events: seq<Event>) {
    && (LastSettled(w) ==> !w.attached)
    && (!w.attached ==> LastSettled(w) || Returns in events)
  }

  lemma StepLetsGo(s: System, before: seq<Event>, e: Event, window: Window)
    requires SystemValid(s, window) && LetsGo(s.worker, before)
    ensures LetsGo(Step(s, e, window).worker, before + [e])
  {
    hide ProtocolValid, Parts, Abouts, Drain, Sum;
    WorkerIsValid(s, window);
  }

  /**
   * In every run a worker whose last part has a result lets go of the stream, and otherwise only one whose function has
   * returned.
   */
  lemma {:induction false} LetsGoWhenTheLastSettled(events: seq<Event>, window: Window)
    ensures LetsGo(Run(events, window).worker, events)
  {
    hide LetsGo, Step, SystemValid;
    if events == [] {
      StartLetsGo();
    } else {
      var before, e := events[..|events| - 1], events[|events| - 1];
      LetsGoWhenTheLastSettled(before, window);
      RunValid(before, window);
      StepLetsGo(Run(before, window), before, e, window);
      assert before + [e] == events;
    }
  }

  lemma StartLetsGo()
    ensures LetsGo(START.worker, [])
  {
  }

  /** Messages are taken in the order they were sent: what is sent goes behind what is on its way. */
  lemma MessagesKeepTheirOrder(events: seq<Event>, e: Event, window: Window)
    ensures var s, after := Run(events, window), Run(events + [e], window);
      && (if e.ServerGets? && s.toServer != [] then after.toServer == s.toServer[1..] else s.toServer <= after.toServer)
      && (if e.WorkerGets? && s.toWorker != [] then after.toWorker == s.toWorker[1..] else s.toWorker <= after.toWorker)
  {
    hide Run, Drain;
    RunPush(events, e, window);
  }

  // ----- a response that is not cut off -----

  /** No abort was sent, and the request is only over when everything was written. */
  ghost predicate NotCutOff(s: System) {
    && Abort !in s.toWorker && !s.worker.aborted && s.server.dropped == []
    && (s.server.over ==> s.server.ended.Some? && s.server.writing == [])
  }

  lemma StepNotCutOff(s: System, e: Event, window: Window)
    requires SystemValid(s, window) && NotCutOff(s) && e != CleansUp(false)
    ensures NotCutOff(Step(s, e, window))
  {
    hide Parts, Abouts, FlowValid, WorkerValid, AllLocated, Drain, SenderValid, WithinWindow;
  }

  /** A worker is told of no abort, and no part is dropped, in every run whose clean-ups come after the response. */
  lemma {:induction false} NothingIsAborted(events: seq<Event>, window: Window)
    requires CleansUp(false) !in events
    ensures NotCutOff(Run(events, window))
  {
    hide NotCutOff, Step, SystemValid;
    if events == [] {
      StartNotCutOff();
    } else {
      var before, e := events[..|events| - 1], events[|events| - 1];
      assert events == before + [e];
      NothingIsAborted(before, window);
      RunValid(before, window);
      StepNotCutOff(Run(before, window), e, window);
    }
  }

  lemma StartNotCutOff()
    ensures NotCutOff(START)
  {
  }

  /** What an answer is decided by: the source, and every part that was handed over. */
  ghost predicate AllWentWell(events: seq<Event>, window: Window) {
    && !SourceFailed(events, window)
    && var promises := Run(events, window).worker.promises;
       forall i :: 0 <= i < |promises| ==> promises[i] == Settled(true)
  }

  /** In every run that has an answer it is `true` exactly when the source did not fail and every part proceeded. */
  lemma AnswerIsWhetherAllWentWell(events: seq<Event>, window: Window)
    requires Run(events, window).sender.phase.Done?
    ensures Run(events, window).sender.phase.result <==> AllWentWell(events, window)
  {
    hide Run, SourceFailed, ProtocolValid, Sum;
    RunValid(events, window);
    RunAnswer(events, window);
    CompletedUnlessFailed(events, window);
  }

  /** A negative answer has a reason. */
  ghost predicate AnswerValid(s: System) {
    s.sender.phase == Done(false) ==>
      !s.sender.completed || exists i :: 0 <= i < |s.worker.promises| && s.worker.promises[i] == Settled(false)
  }

  lemma StepAnswer(s: System, e: Event, window: Window)
    requires WorkerValid(s.worker) && AnswerValid(s)
    ensures AnswerValid(Step(s, e, window))
  {
    hide WorkerValid, SendPart, Acknowledge, AbortAll;
    var after := Step(s, e, window);
    SettlesOnce(s, e, window);
    if s.sender.phase == Done(false) && s.sender.completed {
      var i :| 0 <= i < |s.worker.promises| && s.worker.promises[i] == Settled(false);
      assert after.worker.promises[i] == Settled(false);
    } else if e.Resumes? && CanResume(s) {
      AnswerHasAReason(s, window);
    }
  }

  lemma AnswerHasAReason(s: System, window: Window)
    requires CanResume(s)
    ensures AnswerValid(Resume(s, window))
  {
    if s.sender.phase.Ending? && s.sender.completed && !AllProceed(s) {
      var i :| s.sender.awaited <= i < |s.worker.promises| && s.worker.promises[i] != Settled(true);
      assert s.worker.promises[i] == Settled(false);
    }
  }

  lemma {:induction false} RunAnswer(events: seq<Event>, window: Window)
    ensures AnswerValid(Run(events, window))
  {
    hide AnswerValid, Step, SystemValid;
    if events == [] {
      StartAnswer();
    } else {
      RunAnswer(events[..|events| - 1], window);
      RunValid(events[..|events| - 1], window);
      WorkerIsValid(Run(events[..|events| - 1], window), window);
      StepAnswer(Run(events[..|events| - 1], window), events[|events| - 1], window);
    }
  }

  lemma StartAnswer()
    ensures AnswerValid(START)
  {
  }

  /** It takes chunks again, or awaits the next part. */
  predicate GoesOn(sender: Sender, after: Sender) {
    || (after.phase.Sending? && after.awaited == sender.awaited)
    || (after.phase.Draining? && after.awaited == sender.awaited + 1)
  }

  /**
   * When it answers: at the end once every promise has settled, and before that as soon as the part it awaits did not
   * proceed; otherwise it goes on.
   */
  lemma AnswersAtOnce(events: seq<Event>, window: Window)
    ensures var s, after := Run(events, window), Run(events + [Resumes], window);
      match s.sender.phase
      case Ending => if AllSettled(s) then after.sender.phase == Done(AllWentWell(events, window)) else after == s
      case Draining =>
        && 0 < s.sender.awaited <= |s.worker.promises|
        && (match s.worker.promises[s.sender.awaited - 1]
            case Pending => after == s
            case Settled(false) => after.sender.phase == Done(false)
            case Settled(true) => GoesOn(s.sender, after.sender))
      case _ => after == s
  {
    hide Run, Step;
    RunPush(events, Resumes, window);
    RunValid(events, window);
    CompletedUnlessFailed(events, window);
    ResumesFrom(Run(events, window), window);
  }

  lemma ResumesFrom(s: System, window: Window)
    requires SystemValid(s, window)
    ensures var after := Step(s, Resumes, window);
      match s.sender.phase
      case Ending =>
        if AllSettled(s) then after.sender.phase == Done(s.sender.completed && ProceededTo(s, |s.worker.promises|))
        else after == s
      case Draining =>
        && 0 < s.sender.awaited <= |s.worker.promises|
        && (match s.worker.promises[s.sender.awaited - 1]
            case Pending => after == s
            case Settled(false) => after.sender.phase == Done(false)
            case Settled(true) => GoesOn(s.sender, after.sender))
      case _ => after == s
  {
    hide ProtocolValid, Sum, IsFull;
  }

  /**
   * `streamResponse` answers `true` only when the source did not fail, the write callback of every part has run and the
   * end was sent to the client, in every run, although the acknowledgement of the end can overtake the others.
   */
  lemma TrueMeansWritten(events: seq<Event>, window: Window)
    requires Run(events, window).sender.phase == Done(true)
    ensures var s := Run(events, window);
      && !SourceFailed(events, window)
      && 0 < |s.worker.promises|
      && s.server.ended == Some(|s.worker.promises| - 1)
      && forall part :: 0 <= part < |s.worker.promises| - 1 ==> part in s.server.written
  {
    RunValid(events, window);
    CompletedUnlessFailed(events, window);
    var s := Run(events, window);
    var last := |s.worker.promises| - 1;
    NothingOnItsWay(s);
    assert Located(s, last);
    forall part | 0 <= part < last ensures part in s.server.written {
      assert Located(s, part);
    }
    LastEnds(events, window);
  }

  /** When every part has proceeded, nothing is on its way any more. */
  lemma NothingOnItsWay(s: System)
    requires ProtocolValid(s) && ProceededTo(s, |s.worker.promises|)
    ensures s.toServer == [] && s.server.dropped == [] && s.server.writing == []
    ensures forall i :: 0 <= i < |s.worker.promises| ==> Located(s, i)
  {
    hide Abouts;
    WaitingFew(s.worker, |s.worker.promises|);
  }

  /** The last part of a response that is ending was refused or is known as the last one. */
  ghost predicate LastKnown(s: System) {
    s.sender.phase.Ending? || s.sender.phase == Done(true) ==>
      0 < |s.worker.promises| &&
      (s.worker.last == Some(|s.worker.promises| - 1) || s.worker.promises[|s.worker.promises| - 1] == Settled(false))
  }

  lemma StepLastKnown(s: System, e: Event, window: Window)
    requires WorkerValid(s.worker) && LastKnown(s)
    ensures LastKnown(Step(s, e, window))
  {
    hide WorkerValid, Resume, ServerGet, WriteEnd, Acknowledge, AbortAll, CanResume;
    SettlesOnce(s, e, window);
    if !e.Chunk? && !e.SourceEnds? {
      OthersKeepLast(s, e, window);
    }
  }

  lemma OthersKeepLast(s: System, e: Event, window: Window)
    requires !e.Chunk? && !e.SourceEnds?
    ensures var after := Step(s, e, window);
      && after.worker.last == s.worker.last && |after.worker.promises| == |s.worker.promises|
      && (after.sender.phase.Ending? || after.sender.phase == Done(true) ==>
          s.sender.phase.Ending? || s.sender.phase == Done(true))
  {
  }

  lemma {:induction false} RunLastKnown(events: seq<Event>, window: Window)
    ensures LastKnown(Run(events, window))
  {
    hide LastKnown, Step, ProtocolValid;
    if events == [] {
      StartLastKnown();
    } else {
      RunLastKnown(events[..|events| - 1], window);
      RunValid(events[..|events| - 1], window);
      ProtocolShape(Run(events[..|events| - 1], window));
      StepLastKnown(Run(events[..|events| - 1], window), events[|events| - 1], window);
    }
  }

  lemma StartLastKnown()
    ensures LastKnown(START)
  {
  }

  lemma LastEnds(events: seq<Event>, window: Window)
    requires Run(events, window).sender.phase == Done(true)
    ensures var s := Run(events, window); 0 < |s.worker.promises| && s.server.ended == Some(|s.worker.promises| - 1)
  {
    RunValid(events, window);
    RunLastKnown(events, window);
    var s := Run(events, window);
    NothingOnItsWay(s);
    assert Located(s, |s.worker.promises| - 1);
  }

  lemma RunPush(events: seq<Event>, e: Event, window: Window)
    ensures Run(events + [e], window) == Step(Run(events, window), e, window)
  {
    assert (events + [e])[..|events|] == events;
  }

  /** After that it may proceed before: the end is acknowledged at once, which lets the oldest part go on. */
  lemma EndOvertakes()
    ensures var events := [Chunk(5, false)] + [SourceEnds(false)] + [ServerGets] + [ServerGets] + [WorkerGets];
      var s := Run(events, Window(None, 100));
      s.worker.promises[..] == [Settled(true), Pending] && s.server.writing == [0] && s.server.written == []
  {
    hide Run, Step;
    var window := Window(None, 100);
    RunNone(window);
    RunPush([], Chunk(5, false), window);
    assert [] + [Chunk(5, false)] == [Chunk(5, false)];
    RunPush([Chunk(5, false)], SourceEnds(false), window);
    RunPush([Chunk(5, false)] + [SourceEnds(false)], ServerGets, window);
    RunPush([Chunk(5, false)] + [SourceEnds(false)] + [ServerGets], ServerGets, window);
    RunPush([Chunk(5, false)] + [SourceEnds(false)] + [ServerGets] + [ServerGets], WorkerGets, window);
    BothAreSent(window);
    EndIsAcknowledgedFirst(window);
  }

  /** A part and the end in the channel. */
  const SENT := START.(
    sender := Sender(Ending, 0, [5], 5, true),
    worker := START.worker.(promises := [Pending, Pending], waiting := [0, 1], last := Some(1)),
    toServer := [Emit(0, false), Emit(1, true)])

  lemma BothAreSent(window: Window)
    requires window == Window(None, 100)
    ensures Step(Step(START, Chunk(5, false), window), SourceEnds(false), window) == SENT
  {
    var s := Step(START, Chunk(5, false), window);
    assert s.worker.promises == [Pending] && s.toServer == [Emit(0, false)]
      && s.sender == Sender(Sending, 0, [5], 5, true);
  }

  lemma EndIsAcknowledgedFirst(window: Window)
    ensures var s := Step(Step(Step(SENT, ServerGets, window), ServerGets, window), WorkerGets, window);
      s.worker.promises[..] == [Settled(true), Pending] && s.server.writing == [0] && s.server.written == []
  {
    var writing := Step(SENT, ServerGets, window);
    assert writing.server.writing == [0] && writing.toServer == [Emit(1, true)];
    assert Step(writing, ServerGets, window).toWorker == [Ack(1)];
  }

  lemma RunNone(window: Window)
    ensures Run([], window) == START
  {
  }
}
