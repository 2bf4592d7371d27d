/**
 * The code of a streamed response: the side of the worker, the side of the server, and the two of them together. Each
 * side is a part of the system, and what its callbacks do is said in any system it is a part of.
 */
module ResponseProcesses {
  import opened Collections
  import opened ResponseStream

  class WorkerSide {
    const window: Window
    var phase: Phase
    var awaited: nat
    var sizes: seq<nat>
    var inFlight: int
    var completed: bool
    var promises: seq<Promise>
    var waiting: seq<nat>
    var aborted: bool
    var attached: bool
    var last: Option<nat>
    /** What was sent to the channel and not taken from it. */
    var toServer: seq<Emit>

    /** The system with this side in it. */
    ghost function In(s: System): System
      reads this
    {
      s.(sender := Sender(phase, awaited, sizes, inFlight, completed),
         worker := Worker(promises, waiting, aborted, attached, last), toServer := toServer)
    }

    constructor (window: Window)
      ensures In(START) == START && this.window == window
    {
      this.window := window;
      phase, awaited, sizes, inFlight, completed := Sending, 0, [], 0, true;
      promises, waiting, aborted, attached, last := [], [], false, true, None;
      toServer := [];
    }

    /** `sendResponsePart` */
    method Send(isLast: bool, tooBig: bool)
      modifies this`promises, this`waiting, this`attached, this`last, this`toServer
      ensures forall s: System :: In(s) == SendPart(old(In(s)), isLast, tooBig)
    {
      var part := |promises|;
      if aborted {
        promises := promises + [Settled(false)];
        return;
      }
      attached := true;
      if tooBig {
        promises := promises + [Settled(false)];
        return;
      }
      toServer := toServer + [Emit(part, isLast)];
      if isLast {
        last := Some(part);
      }
      promises := promises + [Pending];
      waiting := waiting + [part];
    }

    method TakeOldest()
      modifies this`phase, this`awaited, this`sizes, this`inFlight
      ensures forall s: System :: In(s) == old(In(s)).(sender := Drain(old(In(s)).sender, window))
    {
      if sizes != [] && ((window.parts.Some? && |sizes| >= window.parts.value) || inFlight >= window.bytes) {
        phase := Draining;
        inFlight := inFlight - sizes[0];
        sizes := sizes[1..];
        awaited := awaited + 1;
      } else {
        phase := Sending;
      }
    }

    method OnChunk(size: nat, tooBig: bool)
      requires phase.Sending?
      modifies this
      ensures forall s: System :: In(s) == Step(old(In(s)), Chunk(size, tooBig), window)
    {
      hide Drain;
      if size == 0 {
        return;
      }
      Send(false, tooBig);
      sizes := sizes + [size];
      inFlight := inFlight + size;
      TakeOldest();
    }

    method OnSourceEnd(failed: bool)
      requires phase.Sending?
      modifies this
      ensures forall s: System :: In(s) == Step(old(In(s)), SourceEnds(failed), window)
    {
      if failed {
        completed := false;
      }
      assert forall s: System :: In(s) == old(In(s)).(sender := In(s).sender);
      label Sent:
      Send(true, false);
      assert forall s: System :: In(s) == SendPart(old@Sent(In(s)), true, false);
      phase := Ending;
    }

    /** The promise that is awaited, or all of them at the end, has settled. */
    method OnSettled()
      requires CanResume(In(START))
      modifies this
      ensures forall s: System :: In(s) == Step(old(In(s)), Resumes, window)
    {
      hide Drain;
      if phase.Ending? {
        var i, all := awaited, true;
        while i < |promises|
          invariant awaited <= i
          invariant all == forall k :: awaited <= k < i && k < |promises| ==> promises[k] == Settled(true)
        {
          all := all && promises[i] == Settled(true);
          i := i + 1;
        }
        phase := Done(completed && all);
      } else if promises[awaited - 1] == Settled(true) {
        TakeOldest();
      } else {
        phase := Done(false);
      }
    }

    /** `RESPONSE_ACKNOWLEDGE` */
    method OnAcknowledge()
      requires forall i :: 0 <= i < |waiting| ==> waiting[i] < |promises|
      modifies this`waiting, this`promises, this`attached
      ensures forall s: System :: In(s) == old(In(s)).(worker := Acknowledge(old(In(s)).worker))
    {
      if attached && waiting != [] {
        var part := waiting[0];
        waiting := waiting[1..];
        if last == Some(part) {
          attached := false;
        }
        promises := promises[part := Settled(true)];
      }
    }

    /** `abortRequest`: every part that waits is told that the client is gone. */
    method OnAbort()
      requires forall i :: 0 <= i < |waiting| ==> waiting[i] < |promises|
      modifies this`waiting, this`promises, this`attached, this`aborted
      ensures forall s: System :: In(s) == old(In(s)).(worker := AbortAll(old(In(s)).worker))
    {
      if !attached {
        return;
      }
      aborted := true;
      var all := waiting;
      waiting := [];
      for i := 0 to |all|
        invariant aborted && waiting == [] && |promises| == |old(promises)|
        invariant forall k :: 0 <= k < |promises| ==>
          promises[k] == if k in all[..i] then Settled(false) else old(promises)[k]
        invariant attached == (last.None? || last.value !in all[..i])
      {
        if last == Some(all[i]) {
          attached := false;
        }
        promises := promises[all[i] := Settled(false)];
      }
      assert all[..|all|] == all;
      assert promises == SettleAll(old(promises), all);
    }

    /** The channel hands the oldest message over. */
    method TakeFromChannel() returns (emit: Emit)
      requires toServer != []
      modifies this`toServer
      ensures emit == old(toServer)[0] && toServer == old(toServer)[1..]
    {
      emit := toServer[0];
      toServer := toServer[1..];
    }

    method OnReturned()
      modifies this`attached
      ensures forall s: System :: In(s) == Step(old(In(s)), Returns, window)
    {
      if waiting == [] {
        attached := false;
      }
    }
  }

  class ServerSide {
    var writing: seq<nat>
    var written: seq<nat>
    var ended: Option<nat>
    var over: bool
    var dropped: seq<nat>
    /** What was sent to the worker and not taken by it. */
    var toWorker: seq<Back>

    /** The system with this side in it. */
    ghost function In(s: System): System
      reads this
    {
      s.(server := Server(writing, written, ended, over, dropped), toWorker := toWorker)
    }

    constructor ()
      ensures In(START) == START
    {
      writing, written, ended, over, dropped, toWorker := [], [], None, false, [], [];
    }

    /** `emit`, which is not called any more for a request that is over. */
    method OnEmit(emit: Emit)
      modifies this
      ensures forall s: System :: In(s) == ServerGet(old(In(s)).(toServer := [emit] + s.toServer))
    {
      if over {
        dropped := dropped + [emit.part];
      } else if emit.isLast {
        ended := Some(emit.part);
        toWorker := toWorker + [Ack(emit.part)];
      } else {
        writing := writing + [emit.part];
      }
    }

    /** The channel hands the oldest message over. */
    method TakeFromChannel() returns (back: Back)
      requires toWorker != []
      modifies this`toWorker
      ensures back == old(toWorker)[0] && toWorker == old(toWorker)[1..]
    {
      back := toWorker[0];
      toWorker := toWorker[1..];
    }

    /** The callback of a write. */
    method OnWritten()
      requires writing != []
      modifies this
      ensures forall s: System :: In(s) == WriteEnd(old(In(s)))
    {
      var part := writing[0];
      writing := writing[1..];
      written := written + [part];
      toWorker := toWorker + [Ack(part)];
    }

    /** `cleanupConnection` */
    method CleanUp(finished: bool)
      requires finished ==> ended.Some? && writing == []
      modifies this
      ensures forall s: System, window :: In(s) == Step(old(In(s)), CleansUp(finished), window)
    {
      if !finished {
        toWorker := toWorker + [Abort];
      }
      over := true;
    }
  }

  /**
   * Both sides with the channels between them. Every callback is the step of the system for its event, so the objects
   * are always in a state of a run, and what holds in every run holds of them.
   */
  class StreamedResponse {
    const window: Window
    const worker: WorkerSide
    const server: ServerSide
    ghost var events: seq<Event>

    ghost function Model(): System
      reads this, worker, server
    {
      worker.In(server.In(START))
    }

    ghost predicate Valid()
      reads this, worker, server
    {
      worker.window == window && Model() == Run(events, window)
    }

    constructor (window: Window)
      ensures Valid() && events == [] && this.window == window && fresh(worker) && fresh(server)
    {
      this.window := window;
      worker := new WorkerSide(window);
      server := new ServerSide();
      events := [];
      new;
      RunNone(window);
      assert Model() == START;
    }

    /** What the run so far says of the objects. */
    lemma ModelIsValid()
      requires Valid()
      ensures SystemValid(Model(), window) && WorkerValid(Model().worker)
    {
      RunValid(events, window);
      WorkerIsValid(Model(), window);
    }

    method Chunks(size: nat, tooBig: bool)
      requires Valid() && worker.phase.Sending?
      modifies this, worker
      ensures Valid() && events == old(events) + [Chunk(size, tooBig)]
    {
      hide Step, Run;
      worker.OnChunk(size, tooBig);
      RunPush(events, Chunk(size, tooBig), window);
      events := events + [Chunk(size, tooBig)];
    }

    method SourceEnd(failed: bool)
      requires Valid() && worker.phase.Sending?
      modifies this, worker
      ensures Valid() && events == old(events) + [SourceEnds(failed)]
    {
      hide Step, Run;
      worker.OnSourceEnd(failed);
      RunPush(events, SourceEnds(failed), window);
      events := events + [SourceEnds(failed)];
    }

    /** `streamResponse` answers `true` only when everything was written to the client. */
    method Resume() returns (answer: Option<bool>)
      requires Valid() && CanResume(Model())
      modifies this, worker
      ensures Valid() && events == old(events) + [Resumes]
      ensures answer == if worker.phase.Done? then Some(worker.phase.result) else None
      ensures answer.Some? ==> (answer.value <==> AllWentWell(events, window))
      ensures answer == Some(true) ==>
        && !SourceFailed(events, window) && 0 < |worker.promises|
        && server.ended == Some(|worker.promises| - 1)
        && forall part :: 0 <= part < |worker.promises| - 1 ==> part in server.written
    {
      hide Step, Run;
      worker.OnSettled();
      RunPush(events, Resumes, window);
      events := events + [Resumes];
      if !worker.phase.Done? {
        return None;
      }
      AnswerIsWhetherAllWentWell(events, window);
      if worker.phase.result {
        TrueMeansWritten(events, window);
      }
      return Some(worker.phase.result);
    }

    method Return()
      requires Valid()
      modifies this, worker
      ensures Valid() && events == old(events) + [Returns]
    {
      hide Step, Run;
      worker.OnReturned();
      RunPush(events, Returns, window);
      events := events + [Returns];
    }

    method DeliverToServer()
      requires Valid() && worker.toServer != []
      modifies this, worker, server
      ensures Valid() && events == old(events) + [ServerGets]
    {
      hide Run, Step, ServerGet;
      ghost var before := Model();
      ServerStep(before, window);
      var emit := worker.TakeFromChannel();
      server.OnEmit(emit);
      ghost var rest := worker.In(START);
      assert Model() == server.In(rest);
      assert [emit] + rest.toServer == before.toServer;
      RunPush(events, ServerGets, window);
      events := events + [ServerGets];
    }

    method WriteEnded()
      requires Valid() && server.writing != []
      modifies this, server
      ensures Valid() && events == old(events) + [WriteEnds]
    {
      hide Run;
      server.OnWritten();
      ghost var rest := worker.In(START);
      assert Model() == server.In(rest) && old(Model()) == old(server.In(rest));
      RunPush(events, WriteEnds, window);
      events := events + [WriteEnds];
    }

    method CleanUp(finished: bool)
      requires Valid() && (finished ==> server.ended.Some? && server.writing == [])
      modifies this, server
      ensures Valid() && events == old(events) + [CleansUp(finished)]
    {
      hide Run, Step;
      server.CleanUp(finished);
      ghost var rest := worker.In(START);
      assert Model() == server.In(rest) && old(Model()) == old(server.In(rest));
      RunPush(events, CleansUp(finished), window);
      events := events + [CleansUp(finished)];
    }

    method DeliverToWorker()
      requires Valid() && server.toWorker != []
      modifies this, worker, server
      ensures Valid() && events == old(events) + [WorkerGets]
    {
      hide Run, Step, Acknowledge, AbortAll, SystemValid;
      ModelIsValid();
      WorkerStep(Model(), window);
      var back := server.TakeFromChannel();
      if back.Ack? {
        worker.OnAcknowledge();
      } else {
        worker.OnAbort();
      }
      RunPush(events, WorkerGets, window);
      events := events + [WorkerGets];
    }
  }

  lemma WorkerStep(s: System, window: Window)
    requires s.toWorker != []
    ensures Step(s, WorkerGets, window)
         == s.(toWorker := s.toWorker[1..], worker := if s.toWorker[0].Ack? then Acknowledge(s.worker)
           else AbortAll(s.worker))
  {
  }

  lemma ServerStep(s: System, window: Window)
    requires s.toServer != []
    ensures Step(s, ServerGets, window) == ServerGet(s)
  {
  }
}
