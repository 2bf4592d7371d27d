/**
 * The code of a streamed request body: the side of the server, the side of the worker, and the two of them together.
 * Each side is a part of the system, and what its callbacks do is said in any system it is a part of.
 */
module BodyProcesses {
  import opened RequestBody

  /** `createBodyForwarder` */
  class BodyForwarder {
    const limit: nat
    var unacknowledged: int
    var receivedBytes: nat
    /** The request and the channel. */
    var paused: bool
    var over: bool
    var up: seq<Up>
    ghost var given: seq<Part>
    ghost var sent: seq<Part>
    ghost var closed: bool

    /** The system with this side in it. */
    ghost function In(s: System): System
      reads this
    {
      s.(forwarder := Forwarder(unacknowledged, receivedBytes, paused, over), up := up, given := given, sent := sent,
        closed := closed)
    }

    constructor (limit: nat)
      ensures In(START) == START && this.limit == limit
    {
      this.limit := limit;
      unacknowledged, receivedBytes, paused, over, up, given, sent, closed := 0, 0, false, false, [], [], [], false;
    }

    method OnPart(chunk: Part)
      modifies this
      ensures forall s: System :: In(s) == Forward(old(In(s)), chunk, limit)
    {
      given := given + [chunk];
      receivedBytes := receivedBytes + |chunk|;
      if limit > 0 && receivedBytes > limit {
        over := true;
        paused := false;
        return;
      }
      up := up + [Body(chunk)];
      sent := sent + [chunk];
      unacknowledged := unacknowledged + 1;
      if unacknowledged >= WINDOW {
        paused := true;
      }
    }

    method OnEnd()
      modifies this`up, this`closed
      ensures forall s: System :: In(s) == old(In(s)).(up := old(In(s)).up + [End], closed := true)
    {
      up := up + [End];
      closed := true;
    }

    method OnAcknowledge()
      modifies this`unacknowledged, this`paused
      ensures forall s: System :: In(s) == old(In(s)).(forwarder := Acknowledged(old(In(s)).forwarder))
    {
      unacknowledged := unacknowledged - 1;
      if unacknowledged < WINDOW {
        paused := false;
      }
    }

    method CleanUp()
      modifies this`over, this`paused
      ensures forall s: System, limit :: In(s) == Step(old(In(s)), CleansUp, limit)
    {
      over := true;
      paused := false;
    }

    /** The channel hands the oldest message over. */
    method TakeFromChannel() returns (message: Up)
      requires up != []
      modifies this`up
      ensures message == old(up)[0] && up == old(up)[1..]
    {
      message := up[0];
      up := up[1..];
    }
  }

  /** `createUpload` */
  class UploadStream {
    var owed: nat
    var listening: bool
    var ended: bool
    var destroyed: bool
    var pushed: seq<Part>
    /** The channel. */
    var acks: nat

    /** The system with this side in it. */
    ghost function In(s: System): System
      reads this
    {
      s.(upload := Upload(owed, listening, ended, destroyed, pushed), acks := acks)
    }

    constructor ()
      ensures In(START) == START
    {
      owed, listening, ended, destroyed, pushed, acks := 0, true, false, false, [], 0;
    }

    method OnMessage(message: Up, room: bool)
      modifies this
      ensures forall s: System :: In(s) == Receive(old(In(s)), message, room)
    {
      if !listening {
        return;
      }
      if message.End? {
        listening := false;
        ended := true;
        return;
      }
      pushed := pushed + [message.part];
      if room {
        acks := acks + 1;
      } else {
        owed := owed + 1;
      }
    }

    method Read()
      requires !destroyed && !ended
      modifies this`owed, this`acks
      ensures forall s: System, limit :: In(s) == Step(old(In(s)), Reads, limit)
    {
      while owed > 0
        invariant acks + owed == old(acks) + old(owed)
      {
        acks := acks + 1;
        owed := owed - 1;
      }
    }

    method Destroy()
      modifies this`listening, this`destroyed
      ensures forall s: System, limit :: In(s) == Step(old(In(s)), Destroys, limit)
    {
      listening := false;
      destroyed := true;
    }

    /** The channel hands an acknowledgement over. */
    method TakeFromChannel()
      requires acks > 0
      modifies this`acks
      ensures acks == old(acks) - 1
    {
      acks := acks - 1;
    }
  }

  /**
   * Both sides with the channels between them. Every callback is the step of the system for its event, so the objects
   * are always in a state of a run, and what holds in every run holds of them.
   */
  class BodyTransfer {
    const limit: nat
    const forwarder: BodyForwarder
    const upload: UploadStream
    ghost var events: seq<Event>

    ghost function Model(): System
      reads this, forwarder, upload
    {
      forwarder.In(upload.In(START))
    }

    ghost predicate Valid()
      reads this, forwarder, upload
    {
      forwarder.limit == limit && Model() == Run(events, limit)
    }

    constructor (limit: nat)
      ensures Valid() && events == [] && this.limit == limit && fresh(forwarder) && fresh(upload)
    {
      this.limit := limit;
      forwarder := new BodyForwarder(limit);
      upload := new UploadStream();
      events := [];
      new;
      RunNone(limit);
      assert Model() == START;
    }

    /** What the run so far says of the objects. */
    lemma ModelIsValid()
      requires Valid()
      ensures RequestBody.Valid(Model(), limit)
      ensures !forwarder.over && !upload.destroyed ==>
        && forwarder.unacknowledged == |Parts(forwarder.up)| + upload.owed + upload.acks <= 4
        && (forwarder.paused <==> forwarder.unacknowledged == 4)
        && (forwarder.paused ==> Parts(forwarder.up) != [] || upload.owed > 0 || upload.acks > 0)
      ensures forwarder.over <==>
        TooBig(forwarder.given, limit) || exists i :: 0 <= i < |events| && events[i] == CleansUp
      ensures forwarder.given == Came(events, limit)
      ensures forwarder.sent == if TooBig(forwarder.given, limit) then forwarder.given[..|forwarder.given| - 1]
                else forwarder.given
      ensures upload.pushed <= forwarder.given
      ensures upload.ended && !upload.destroyed ==> upload.pushed == forwarder.given
    {
      hide Parts, TooBig, Came, Run;
      EveryRunIsValid(events, limit);
      OverExactlyWhenTooBig(events, limit);
    }

    method Data(part: Part)
      requires Valid() && !forwarder.paused && !forwarder.over && !forwarder.closed
      modifies this, forwarder
      ensures Valid() && events == old(events) + [Event.Data(part)]
    {
      hide Run, Forward;
      forwarder.OnPart(part);
      RunPush(events, Event.Data(part), limit);
      events := events + [Event.Data(part)];
    }

    method BodyEnd()
      requires Valid() && !forwarder.paused && !forwarder.over && !forwarder.closed
      modifies this, forwarder
      ensures Valid() && events == old(events) + [BodyEnds]
    {
      hide Run;
      forwarder.OnEnd();
      RunPush(events, BodyEnds, limit);
      events := events + [BodyEnds];
    }

    method DeliverToWorker(room: bool)
      requires Valid() && forwarder.up != []
      modifies this, forwarder, upload
      ensures Valid() && events == old(events) + [WorkerGets(room)]
    {
      hide Run, Receive, Step;
      WorkerStep(Model(), room, limit);
      var message := forwarder.TakeFromChannel();
      upload.OnMessage(message, room);
      ghost var rest := forwarder.In(START);
      assert Model() == upload.In(rest);
      RunPush(events, WorkerGets(room), limit);
      events := events + [WorkerGets(room)];
    }

    /** An acknowledgement is not heard of once the request is over. */
    method DeliverToServer()
      requires Valid() && upload.acks > 0
      modifies this, forwarder, upload
      ensures Valid() && events == old(events) + [ServerGets]
    {
      hide Run;
      upload.TakeFromChannel();
      if !forwarder.over {
        forwarder.OnAcknowledge();
      }
      RunPush(events, ServerGets, limit);
      events := events + [ServerGets];
    }

    method Read()
      requires Valid() && !upload.destroyed && !upload.ended
      modifies this, upload
      ensures Valid() && events == old(events) + [Reads]
    {
      hide Run, Step;
      upload.Read();
      ghost var rest := forwarder.In(START);
      assert Model() == upload.In(rest) && old(Model()) == old(upload.In(rest));
      RunPush(events, Reads, limit);
      events := events + [Reads];
    }

    method Destroy()
      requires Valid()
      modifies this, upload
      ensures Valid() && events == old(events) + [Destroys]
    {
      hide Run, Step;
      upload.Destroy();
      ghost var rest := forwarder.In(START);
      assert Model() == upload.In(rest) && old(Model()) == old(upload.In(rest));
      RunPush(events, Destroys, limit);
      events := events + [Destroys];
    }

    method CleanUp()
      requires Valid()
      modifies this, forwarder
      ensures Valid() && events == old(events) + [CleansUp]
    {
      hide Run, Step;
      forwarder.CleanUp();
      RunPush(events, CleansUp, limit);
      events := events + [CleansUp];
    }
  }

  lemma WorkerStep(s: System, room: bool, limit: nat)
    requires s.up != []
    ensures Step(s, WorkerGets(room), limit) == Receive(s.(up := s.up[1..]), s.up[0], room)
  {
  }
}
