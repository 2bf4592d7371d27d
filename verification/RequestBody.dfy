/**
 * A streamed request body: the server forwards the parts of the body to the worker, which acknowledges a part once its
 * reader has room for it, and the server pauses the request while too many parts are not acknowledged. Both channels
 * deliver in order.
 */
module RequestBody {
  import opened Bytes

  const WINDOW := 4

  type Part = seq<Byte>

  /** A message to the worker: a part, or the end of the body. */
  datatype Up = Body(part: Part) | End

  /** `over` once the server is done with the request: it then neither forwards the body nor hears of the worker. */
  datatype Forwarder = Forwarder(unacknowledged: int, receivedBytes: nat, paused: bool, over: bool)

  /** `listening` while the messages find the upload; `pushed` are the parts put into its stream. */
  datatype Upload = Upload(owed: nat, listening: bool, ended: bool, destroyed: bool, pushed: seq<Part>)

  /**
   * `given` are the parts the client has sent, `sent` those that were forwarded, and `acks` the acknowledgements on
   * their way.
   */
  datatype System = System(
    forwarder: Forwarder, up: seq<Up>, upload: Upload, acks: nat, given: seq<Part>, sent: seq<Part>, closed: bool)

  const START := System(Forwarder(0, 0, false, false), [], Upload(0, true, false, false, []), 0, [], [], false)

  datatype Event =
    /** A part of the body, or its end, which a paused request does not give. */
    | Data(part: Part)
    | BodyEnds
    /** The next message reaches the worker, whose stream has room or not. */
    | WorkerGets(room: bool)
    /** The reader of the stream wants more, which is not asked of a stream that was told its end. */
    | Reads
    | ServerGets
    | Destroys
    | CleansUp

  function BytesOf(parts: seq<Part>): nat {
    if parts == [] then 0 else |parts[0]| + BytesOf(parts[1..])
  }

  // ----- the server -----

  /** `part`: a body above the limit (0 for none) ends the request. */
  function Forward(s: System, part: Part, limit: nat): System {
    var f := s.forwarder.(receivedBytes := s.forwarder.receivedBytes + |part|);
    var given := s.(given := s.given + [part]);
    if limit > 0 && f.receivedBytes > limit then given.(forwarder := f.(over := true, paused := false))
    else given.(forwarder := f.(unacknowledged := f.unacknowledged + 1,
                                paused := f.paused || f.unacknowledged + 1 >= WINDOW),
                up := s.up + [Body(part)], sent := s.sent + [part])
  }

  function Acknowledged(f: Forwarder): Forwarder {
    f.(unacknowledged := f.unacknowledged - 1, paused := f.paused && f.unacknowledged - 1 >= WINDOW)
  }

  // ----- the worker -----

  /** `receive` */
  function Receive(s: System, message: Up, room: bool): System {
    var u := s.upload;
    if !u.listening then s
    else match message
      case End => s.(upload := u.(listening := false, ended := true))
      case Body(part) =>
        if room then s.(upload := u.(pushed := u.pushed + [part]), acks := s.acks + 1)
        else s.(upload := u.(pushed := u.pushed + [part], owed := u.owed + 1))
  }

  // ----- all together -----

  predicate Enabled(s: System, e: Event) {
    match e
    case Data(_) => !s.forwarder.paused && !s.forwarder.over && !s.closed
    case BodyEnds => !s.forwarder.paused && !s.forwarder.over && !s.closed
    case WorkerGets(_) => s.up != []
    case Reads => !s.upload.destroyed && !s.upload.ended
    case ServerGets => s.acks > 0
    case Destroys => true
    case CleansUp => true
  }

  /** An event that cannot happen changes nothing. */
  function Step(s: System, e: Event, limit: nat): System {
    if !Enabled(s, e) then s
    else match e
      case Data(part) => Forward(s, part, limit)
      case BodyEnds => s.(up := s.up + [End], closed := true)
      case WorkerGets(room) => Receive(s.(up := s.up[1..]), s.up[0], room)
      case Reads => s.(acks := s.acks + s.upload.owed, upload := s.upload.(owed := 0))
      case ServerGets =>
        s.(acks := s.acks - 1, forwarder := if s.forwarder.over then s.forwarder else Acknowledged(s.forwarder))
      case Destroys => s.(upload := s.upload.(listening := false, destroyed := true))
      case CleansUp => s.(forwarder := s.forwarder.(over := true, paused := false))
  }

  function Run(events: seq<Event>, limit: nat): System {
    if events == [] then START else Step(Run(events[..|events| - 1], limit), events[|events| - 1], limit)
  }

  // ----- what every step keeps -----

  function Parts(up: seq<Up>): seq<Part> {
    if up == [] then [] else (if up[0].Body? then [up[0].part] else []) + Parts(up[1..])
  }

  lemma {:induction false} PartsPush(up: seq<Up>, message: Up)
    ensures Parts(up + [message]) == Parts(up) + if message.Body? then [message.part] else []
  {
    var all := up + [message];
    if up == [] {
      assert all[1..] == [];
    } else {
      assert all[1..] == up[1..] + [message];
      calc {
        Parts(all);
        (if up[0].Body? then [up[0].part] else []) + Parts(all[1..]);
        { PartsPush(up[1..], message); }
        Parts(up) + if message.Body? then [message.part] else [];
      }
    }
  }

  lemma {:induction false} BytesPush(parts: seq<Part>, part: Part)
    ensures BytesOf(parts + [part]) == BytesOf(parts) + |part|
  {
    if parts == [] {
      assert (parts + [part])[1..] == [];
    } else {
      assert (parts + [part])[1..] == parts[1..] + [part];
      BytesPush(parts[1..], part);
    }
  }

  /** The end of the body comes once, behind all parts. */
  ghost predicate EndValid(s: System) {
    && (forall i :: 0 <= i < |s.up| && s.up[i].End? ==> i == |s.up| - 1 && s.closed && !s.upload.ended)
    && (s.upload.ended ==> s.up == [] && s.closed)
    && (!s.upload.listening <==> s.upload.ended || s.upload.destroyed)
    && (s.closed ==> !s.forwarder.paused)
    && (s.closed && !s.upload.ended && !s.upload.destroyed ==> s.up != [] && s.up[|s.up| - 1].End?)
  }

  /**
   * What the server counts as not acknowledged is in the channel, owed by the worker, or acknowledged on the way back.
   */
  ghost predicate Conserved(s: System) {
    !s.forwarder.over && !s.upload.destroyed ==>
      s.forwarder.unacknowledged == |Parts(s.up)| + s.upload.owed + s.acks
  }

  /** The window, which a request that is read only while it is not paused never exceeds. */
  ghost predicate WindowValid(s: System) {
    !s.forwarder.over ==>
      s.forwarder.unacknowledged <= WINDOW && (s.forwarder.paused <==> s.forwarder.unacknowledged == WINDOW)
  }

  /** The stream of the worker gets the parts in order, and the rest of them is in the channel. */
  ghost predicate InOrder(s: System) {
    && (!s.upload.destroyed ==> s.upload.pushed + Parts(s.up) == s.sent)
    && s.upload.pushed <= s.sent <= s.given
    && (!s.forwarder.over ==> s.sent == s.given)
    && (s.closed ==> s.sent == s.given)
  }

  ghost predicate LimitKept(s: System, limit: nat) {
    && s.forwarder.receivedBytes == BytesOf(s.given)
    && (limit > 0 ==> BytesOf(s.sent) <= limit)
  }

  ghost predicate Valid(s: System, limit: nat) {
    EndValid(s) && Conserved(s) && WindowValid(s) && InOrder(s) && LimitKept(s, limit)
  }

  lemma ForwardValid(s: System, part: Part, limit: nat)
    requires Valid(s, limit) && Enabled(s, Data(part))
    ensures Valid(Forward(s, part, limit), limit)
  {
    hide Parts, BytesOf;
    PartsPush(s.up, Body(part));
    BytesPush(s.given, part);
    assert s.upload.pushed + Parts(s.up) + [part] == s.upload.pushed + (Parts(s.up) + [part]);
  }

  lemma ReceiveValid(s: System, room: bool, limit: nat)
    requires Valid(s, limit) && s.up != []
    ensures Valid(Receive(s.(up := s.up[1..]), s.up[0], room), limit)
  {
    hide BytesOf;
    var rest := s.up[1..];
    assert Parts(s.up) == (if s.up[0].Body? then [s.up[0].part] else []) + Parts(rest);
    if s.up[0].Body? {
      var pushed := s.upload.pushed;
      assert pushed + ([s.up[0].part] + Parts(rest)) == (pushed + [s.up[0].part]) + Parts(rest);
    } else {
      assert rest == [];
    }
  }

  lemma StepValid(s: System, e: Event, limit: nat)
    requires Valid(s, limit)
    ensures Valid(Step(s, e, limit), limit)
  {
    hide Parts, BytesOf, Forward, Receive;
    if Enabled(s, e) {
      match e
      case Data(part) => ForwardValid(s, part, limit);
      case BodyEnds => PartsPush(s.up, End);
      case WorkerGets(room) => ReceiveValid(s, room, limit);
      case _ =>
    }
  }

  /**
   * In every run, until the upload is destroyed or the request is over: what the server counts as not acknowledged is
   * exactly what is in the channel, owed and acknowledged on its way back; there are never more than four such parts,
   * and a paused request has one of them, which will resume it. The bytes pushed into the worker's stream are an
   * in-order prefix of the body, the whole body once the stream has ended, and no more than the limit is ever sent.
   */
  lemma {:induction false} EveryRunIsValid(events: seq<Event>, limit: nat)
    ensures Valid(Run(events, limit), limit)
    ensures var s := Run(events, limit);
      && (!s.forwarder.over && !s.upload.destroyed && s.forwarder.paused ==>
          Parts(s.up) != [] || s.upload.owed > 0 || s.acks > 0)
      && (s.upload.ended && !s.upload.destroyed ==> s.upload.pushed == s.given)
      && s.upload.pushed <= s.given
  {
    hide Step;
    if events == [] {
    } else {
      EveryRunIsValid(events[..|events| - 1], limit);
      StepValid(Run(events[..|events| - 1], limit), events[|events| - 1], limit);
    }
  }

  // ----- when a request is over -----

  /** The body is above the limit, where 0 is none. */
  predicate TooBig(given: seq<Part>, limit: nat) {
    limit > 0 && BytesOf(given) > limit
  }

  /** The parts that came while the request was read. */
  ghost function Came(events: seq<Event>, limit: nat): seq<Part> {
    if events == [] then []
    else
      var before, e := events[..|events| - 1], events[|events| - 1];
      var f := Run(before, limit).forwarder;
      Came(before, limit)
        + if e.Data? && !f.paused && !f.over && !Run(before, limit).closed then [e.part] else []
  }

  /** The end of the body came, which a request that is paused or over does not give. */
  ghost predicate EndCame(events: seq<Event>, limit: nat) {
    exists i :: 0 <= i < |events| && events[i] == BodyEnds
      && !Run(events[..i], limit).forwarder.paused && !Run(events[..i], limit).forwarder.over
  }

  /**
   * Unless it was cleaned up, a request is over exactly when its body is above the limit, and then it is not paused.
   * All parts that came were forwarded, but the one that was too much.
   */
  ghost predicate OverValid(s: System, events: seq<Event>, limit: nat) {
    && s.given == Came(events, limit)
    && (s.forwarder.over <==> TooBig(s.given, limit) || exists i :: 0 <= i < |events| && events[i] == CleansUp)
    && (s.forwarder.over ==> !s.forwarder.paused)
    && (if TooBig(s.given, limit) then s.given != [] && s.sent == s.given[..|s.given| - 1] else s.sent == s.given)
  }

  /** The end is passed on exactly when it came. */
  lemma {:induction false} ClosedExactlyWhenTheEndCame(events: seq<Event>, limit: nat)
    ensures Run(events, limit).closed <==> EndCame(events, limit)
  {
    hide Step;
    if events == [] {
      NotClosed(limit);
    } else {
      var before, e := events[..|events| - 1], events[|events| - 1];
      ClosedExactlyWhenTheEndCame(before, limit);
      EveryRunIsValid(before, limit);
      StepCloses(Run(before, limit), e, limit);
      EndCameBefore(events, limit);
    }
  }

  lemma NotClosed(limit: nat)
    ensures !Run([], limit).closed
  {
  }

  lemma StepCloses(s: System, e: Event, limit: nat)
    requires EndValid(s)
    ensures Step(s, e, limit).closed <==>
      s.closed || (e == BodyEnds && !s.forwarder.paused && !s.forwarder.over)
  {
  }

  lemma EndCameBefore(events: seq<Event>, limit: nat)
    requires events != []
    ensures var before, last := events[..|events| - 1], events[|events| - 1];
      var f := Run(before, limit).forwarder;
      EndCame(events, limit) <==> EndCame(before, limit) || (last == BodyEnds && !f.paused && !f.over)
  {
    hide Run;
    var before := events[..|events| - 1];
    assert forall i :: 0 <= i < |before| ==> events[..i] == before[..i] && events[i] == before[i];
  }

  /** In every run. */
  lemma {:induction false} OverExactlyWhenTooBig(events: seq<Event>, limit: nat)
    ensures OverValid(Run(events, limit), events, limit)
  {
    hide Step, Valid, OverValid, Came;
    if events == [] {
      StartOver(limit);
    } else {
      var before, e := events[..|events| - 1], events[|events| - 1];
      OverExactlyWhenTooBig(before, limit);
      EveryRunIsValid(before, limit);
      assert events == before + [e];
      StepOver(Run(before, limit), before, e, limit);
    }
  }

  lemma StartOver(limit: nat)
    ensures OverValid(START, [], limit)
  {
  }

  lemma StepOver(s: System, before: seq<Event>, e: Event, limit: nat)
    requires s == Run(before, limit) && Valid(s, limit) && OverValid(s, before, limit)
    ensures OverValid(Step(s, e, limit), before + [e], limit)
  {
    hide Run, BytesOf, Parts, EndValid, Conserved, InOrder, WindowValid, Receive, Forward;
    var events := before + [e];
    assert events[..|events| - 1] == before && events[|before|] == e;
    assert forall i :: 0 <= i < |before| ==> events[i] == before[i];
    assert e != CleansUp ==> ((exists i :: 0 <= i < |events| && events[i] == CleansUp)
      <==> (exists i :: 0 <= i < |before| && before[i] == CleansUp));
    assert s.given + [] == s.given;
    if e.Data? && Enabled(s, e) {
      ForwardOver(s, e.part, limit);
    } else {
      OthersOver(s, e, limit);
    }
  }

  lemma ForwardOver(s: System, part: Part, limit: nat)
    requires s.forwarder.receivedBytes == BytesOf(s.given) && s.sent == s.given && !s.forwarder.over
    ensures var after := Forward(s, part, limit);
      && after.given == s.given + [part]
      && after.given[..|after.given| - 1] == s.given
      && (after.forwarder.over <==> TooBig(after.given, limit))
      && (after.forwarder.over ==> !after.forwarder.paused)
      && after.sent == if TooBig(after.given, limit) then s.given else after.given
  {
    hide BytesOf;
    BytesPush(s.given, part);
  }

  lemma OthersOver(s: System, e: Event, limit: nat)
    requires !(e.Data? && Enabled(s, e))
    ensures var after := Step(s, e, limit);
      && after.given == s.given && after.sent == s.sent
      && after.forwarder.over == (s.forwarder.over || e.CleansUp?)
      && (!s.forwarder.over || !s.forwarder.paused ==> after.forwarder.over ==> !after.forwarder.paused)
  {
  }

  /**
   * In every run of a request that is not over, at most four parts are not acknowledged, and it is paused exactly when
   * there are four.
   */
  lemma PausedAtFour(events: seq<Event>, limit: nat)
    requires !Run(events, limit).forwarder.over
    ensures var f := Run(events, limit).forwarder;
      f.unacknowledged <= 4 && (f.paused <==> f.unacknowledged == 4)
  {
    EveryRunIsValid(events, limit);
  }

  /**
   * A part that its stream has room for is acknowledged at once, and another one with all that are owed as soon as the
   * stream is read.
   */
  lemma AcknowledgedWithRoomOrWhenRead(events: seq<Event>, room: bool, limit: nat)
    requires var s := Run(events, limit); s.up != [] && s.up[0].Body? && s.upload.listening
    ensures var s := Run(events, limit);
      var taken := Run(events + [WorkerGets(room)], limit);
      var read := Run(events + [WorkerGets(room)] + [Reads], limit);
      && taken.upload.pushed == s.upload.pushed + [s.up[0].part]
      && taken.acks == s.acks + (if room then 1 else 0)
      && read.acks == s.acks + s.upload.owed + 1 && read.upload.owed == 0
  {
    hide Run;
    RunPush(events, WorkerGets(room), limit);
    RunPush(events + [WorkerGets(room)], Reads, limit);
    EveryRunIsValid(events, limit);
  }

  /** A request that is over hears of nothing, and an upload that ended or was destroyed acknowledges nothing. */
  lemma OverStaysOver(events: seq<Event>, e: Event, limit: nat)
    ensures var s, after := Run(events, limit), Run(events + [e], limit);
      && (s.forwarder.over ==> after.forwarder == s.forwarder && |after.up| <= |s.up|)
      && (s.upload.ended || s.upload.destroyed ==> after.acks <= s.acks && after.upload.pushed == s.upload.pushed)
      && (after.upload.destroyed <==> s.upload.destroyed || e == Destroys)
  {
    hide Run, Valid, BytesOf;
    RunPush(events, e, limit);
    EveryRunIsValid(events, limit);
    OverExactlyWhenTooBig(events, limit);
    StepOfOver(Run(events, limit), e, limit);
  }

  lemma StepOfOver(s: System, e: Event, limit: nat)
    requires Valid(s, limit) && (s.forwarder.over ==> !s.forwarder.paused)
    ensures var after := Step(s, e, limit);
      && (s.forwarder.over ==> after.forwarder == s.forwarder && |after.up| <= |s.up|)
      && (s.upload.ended || s.upload.destroyed ==> after.acks <= s.acks && after.upload.pushed == s.upload.pushed)
      && (after.upload.destroyed <==> s.upload.destroyed || e == Destroys)
  {
    hide BytesOf, Parts, Conserved, WindowValid, InOrder, LimitKept;
  }

  // ----- nothing gets stuck -----

  /**
   * Delivering everything that is on its way, to a stream without room, then reading it, then delivering the
   * acknowledgements.
   */
  function Settle(s: System, limit: nat): System
    decreases |s.up|, s.upload.owed, s.acks
  {
    if s.up != [] then Settle(Step(s, WorkerGets(false), limit), limit)
    else if s.upload.owed > 0 && Enabled(s, Reads) then SettleAcks(Step(s, Reads, limit), limit)
    else SettleAcks(s, limit)
  }

  function SettleAcks(s: System, limit: nat): System
    decreases s.acks
  {
    if s.acks == 0 then s else SettleAcks(Step(s, ServerGets, limit), limit)
  }

  lemma {:induction false} SettleAcksResumes(s: System, limit: nat)
    requires Valid(s, limit) && !s.forwarder.over && !s.upload.destroyed && s.up == []
    requires s.upload.ended || s.upload.owed == 0
    ensures var settled := SettleAcks(s, limit);
      settled.upload == s.upload && settled.forwarder.unacknowledged == s.upload.owed && !settled.forwarder.paused
    decreases s.acks
  {
    if s.acks > 0 {
      StepValid(s, ServerGets, limit);
      SettleAcksResumes(Step(s, ServerGets, limit), limit);
    }
  }

  /**
   * A request is never paused for good: from every state it can be in, it goes on once the messages on their way are
   * delivered and the worker reads, even when its stream never has room for a part at once. Until the end of the body
   * has been delivered all parts are acknowledged then; the parts that are owed at the end stay so, as the stream is
   * not read for more.
   */
  lemma {:induction false} NothingGetsStuck(s: System, limit: nat)
    requires Valid(s, limit) && !s.forwarder.over && !s.upload.destroyed
    ensures var settled := Settle(s, limit);
      && !settled.forwarder.paused
      && settled.forwarder.unacknowledged == settled.upload.owed
      && (!settled.upload.ended ==> settled.forwarder.unacknowledged == 0)
    decreases |s.up|
  {
    hide Valid, SettleAcks;
    if s.up != [] {
      StepValid(s, WorkerGets(false), limit);
      NothingGetsStuck(Step(s, WorkerGets(false), limit), limit);
    } else {
      StepValid(s, Reads, limit);
      SettleAcksResumes(if s.upload.owed > 0 && Enabled(s, Reads) then Step(s, Reads, limit) else s, limit);
    }
  }

  lemma RunNone(limit: nat)
    ensures Run([], limit) == START
  {
  }

  lemma RunPush(events: seq<Event>, e: Event, limit: nat)
    ensures Run(events + [e], limit) == Step(Run(events, limit), e, limit)
  {
    assert (events + [e])[..|events|] == events;
  }
}
