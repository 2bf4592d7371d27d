/**
 * A websocket connection after the upgrade: messages go to the worker within a window, whose filling pauses the client,
 * and pings and the close are answered.
 */
module WsConnection {
  import opened Bytes
  import opened Collections
  import WsFrames
  import Parser = WsFrameParser
  import Reader = WsReader

  const WINDOW_MESSAGES := 16
  const WINDOW_BYTES := 1024 * 1024
  const SEND_BUFFER := 8 * 1024 * 1024

  const NORMAL := 1000
  const GOING_AWAY := 1001
  const POLICY := 1008

  /** A frame written to the socket. */
  datatype Out = PongFrame(data: seq<Byte>) | PingFrame | DataFrame(id: nat) | CloseFrame(code: Option<nat>)

  datatype Options = Options(
    limitMessage: nat, pingInterval: nat, idleTimeout: nat, decode: Reader.Decoder, byteLength: string -> nat)

  /**
   * `out` are the frames written, `passed` the messages passed to the worker, and `taken` the chunks that were read;
   * the socket is `writable` until it is ended or lost.
   */
  datatype Connection = Connection(
    pipe: Reader.Pipe, unacknowledged: seq<nat>, unacknowledgedBytes: int, isOpen: bool, closing: bool,
      lastReceived: int,
    paused: bool, writable: bool, out: seq<Out>, passed: seq<Reader.Event>, taken: seq<seq<Byte>>)

  const START := Connection(Reader.PIPE_START, [], 0, false, false, 0, false, true, [], [], [])

  datatype Event =
    | Opens(now: int)
    | Receives(chunk: seq<Byte>, now: int)
    | Acknowledges
    | Sends(id: nat, waiting: nat)
    | Closes(code: Option<nat>)
    | KeepsAlive(now: int)
    | IsLost

  predicate IsFull(c: Connection) {
    |c.unacknowledged| >= WINDOW_MESSAGES || c.unacknowledgedBytes >= WINDOW_BYTES
  }

  function Write(c: Connection, frame: Out): Connection {
    if c.writable then c.(out := c.out + [frame]) else c
  }

  function Close(c: Connection, code: Option<nat>): Connection {
    if c.closing then c else Write(c.(closing := true, paused := false), CloseFrame(code)).(writable := false)
  }

  predicate IsMessage(event: Reader.Event) {
    event.TextMessage? || event.BinaryMessage?
  }

  function SizeOf(event: Reader.Event, o: Options): nat {
    match event
    case TextMessage(text) => o.byteLength(text)
    case BinaryMessage(data) => |data|
    case _ => 0
  }

  function HandleEvent(c: Connection, event: Reader.Event, o: Options): Connection {
    if c.closing then c
    else match event
      case PingEvent(data) => Write(c, PongFrame(data))
      case PongEvent => c
      case CloseEvent(code, _) => Close(c, Some(if code.Some? then code.value else NORMAL))
      case _ =>
        c.(unacknowledged := c.unacknowledged + [SizeOf(event, o)],
           unacknowledgedBytes := c.unacknowledgedBytes + SizeOf(event, o),
           passed := c.passed + [event])
  }

  function HandleEvents(c: Connection, events: seq<Reader.Event>, o: Options): Connection {
    if events == [] then c
    else HandleEvent(HandleEvents(c, events[..|events| - 1], o), events[|events| - 1], o)
  }

  function Receive(c: Connection, chunk: seq<Byte>, now: int, o: Options): Connection {
    if !c.isOpen || c.closing then c
    else
      var received := Reader.Receive(c.pipe, chunk, o.limitMessage, o.decode);
      var read := c.(pipe := received.state, lastReceived := now, taken := c.taken + [chunk]);
      var handled := if received.error.Some? then Close(read, received.error)
        else HandleEvents(read, received.events, o);
      if !handled.closing && IsFull(handled) then handled.(paused := true) else handled
  }

  function Acknowledge(c: Connection): Connection {
    var rest := if c.unacknowledged == [] then c
                else c.(unacknowledged := c.unacknowledged[1..],
                  unacknowledgedBytes := c.unacknowledgedBytes - c.unacknowledged[0]);
    if !rest.closing && !IsFull(rest) then rest.(paused := false) else rest
  }

  function Send(c: Connection, id: nat, waiting: nat): Connection {
    if c.closing || !c.writable then c
    else if waiting > SEND_BUFFER then Close(c, Some(POLICY))
    else Write(c, DataFrame(id))
  }

  function KeepAlive(c: Connection, now: int, o: Options): Connection {
    if c.closing then c
    else if o.idleTimeout > 0 && !c.paused && now - c.lastReceived >= o.idleTimeout then Close(c, Some(GOING_AWAY))
    else if o.pingInterval > 0 then Write(c, PingFrame)
    else c
  }

  function Step(c: Connection, e: Event, o: Options): Connection {
    match e
    case Opens(now) => c.(isOpen := true, lastReceived := now)
    case Receives(chunk, now) => Receive(c, chunk, now, o)
    case Acknowledges => Acknowledge(c)
    case Sends(id, waiting) => Send(c, id, waiting)
    case Closes(code) => Close(c, code)
    case KeepsAlive(now) => KeepAlive(c, now, o)
    case IsLost => c.(writable := false)
  }

  function Run(events: seq<Event>, o: Options): Connection {
    if events == [] then START else Step(Run(events[..|events| - 1], o), events[|events| - 1], o)
  }

  // ----- what every event keeps -----

  /** The window is counted right, and the client is paused exactly while it is full. */
  ghost predicate WindowValid(c: Connection) {
    && c.unacknowledgedBytes == Sum(c.unacknowledged)
    && (!c.isOpen && !c.closing ==> c.unacknowledged == [] && !c.paused)
    && (c.closing ==> !c.paused)
    && (!c.closing ==> (c.paused <==> IsFull(c)))
  }

  /**
   * A close frame is the last frame, and only sent when the connection is closing, after which nothing can be written.
   */
  predicate OutValid(c: Connection) {
    && (forall i :: 0 <= i < |c.out| && c.out[i].CloseFrame? ==> i == |c.out| - 1 && c.closing)
    && (c.closing ==> !c.writable)
  }

  /** Everything but the pausing, which comes after all events of a chunk. */
  ghost predicate Handling(c: Connection) {
    && OutValid(c) && c.isOpen
    && c.unacknowledgedBytes == Sum(c.unacknowledged)
    && (if c.closing then !c.paused else c.paused ==> IsFull(c))
  }

  lemma HandleEventValid(c: Connection, event: Reader.Event, o: Options)
    requires Handling(c)
    ensures Handling(HandleEvent(c, event, o))
  {
    hide Sum;
    if !c.closing && IsMessage(event) {
      SumConcat(c.unacknowledged, [SizeOf(event, o)]);
      SumOne(SizeOf(event, o));
    }
  }

  lemma SumOne(n: int)
    ensures Sum([n]) == n
  {
    assert [n][1..] == [];
  }

  lemma {:induction false} HandleEventsValid(c: Connection, events: seq<Reader.Event>, o: Options)
    requires Handling(c)
    ensures Handling(HandleEvents(c, events, o))
  {
    hide Handling, HandleEvent;
    if events != [] {
      HandleEventsValid(c, events[..|events| - 1], o);
      HandleEventValid(HandleEvents(c, events[..|events| - 1], o), events[|events| - 1], o);
    }
  }

  lemma ReceiveValid(c: Connection, chunk: seq<Byte>, now: int, o: Options)
    requires WindowValid(c) && OutValid(c)
    ensures WindowValid(Receive(c, chunk, now, o)) && OutValid(Receive(c, chunk, now, o))
  {
    hide Reader.Receive, HandleEvents, Sum;
    if c.isOpen && !c.closing {
      var received := Reader.Receive(c.pipe, chunk, o.limitMessage, o.decode);
      var read := c.(pipe := received.state, lastReceived := now, taken := c.taken + [chunk]);
      HandleEventsValid(read, received.events, o);
    }
  }

  lemma AcknowledgeValid(c: Connection)
    requires WindowValid(c) && OutValid(c)
    ensures WindowValid(Acknowledge(c)) && OutValid(Acknowledge(c))
  {
  }

  lemma StepValid(c: Connection, e: Event, o: Options)
    requires WindowValid(c) && OutValid(c)
    ensures WindowValid(Step(c, e, o)) && OutValid(Step(c, e, o))
  {
    hide Sum, Receive, Acknowledge;
    match e
    case Receives(chunk, now) => ReceiveValid(c, chunk, now, o);
    case Acknowledges => AcknowledgeValid(c);
    case _ =>
  }

  /**
   * In every run the window is counted right, the client is paused exactly while it is full (unless the connection is
   * closing), a paused client has a message whose acknowledgement is still to come, and at most one close frame is
   * written, with no frame after it.
   */
  lemma {:induction false} EveryRunIsSafe(events: seq<Event>, o: Options)
    ensures var c := Run(events, o);
      && WindowValid(c) && OutValid(c)
      && (c.paused ==> c.unacknowledged != [])
      && (!c.closing ==> (c.paused <==> |c.unacknowledged| >= 16 || Sum(c.unacknowledged) >= 1024 * 1024))
  {
    hide Step;
    if events != [] {
      EveryRunIsSafe(events[..|events| - 1], o);
      StepValid(Run(events[..|events| - 1], o), events[|events| - 1], o);
    }
  }

  /**
   * Once the worker has acknowledged everything, the client is not paused, and once it has taken enough it goes on at
   * once.
   */
  lemma {:induction false} AcknowledgedResumes(c: Connection)
    requires WindowValid(c) && OutValid(c)
    ensures !AcknowledgeAll(c).paused && AcknowledgeAll(c).unacknowledged == []
    decreases |c.unacknowledged|
  {
    AcknowledgeValid(c);
    if c.unacknowledged != [] {
      AcknowledgedResumes(Acknowledge(c));
    }
  }

  function AcknowledgeAll(c: Connection): Connection
    decreases |c.unacknowledged|
  {
    if c.unacknowledged == [] then c else AcknowledgeAll(Acknowledge(c))
  }

  // ----- what reaches the worker -----

  function MessagesIn(events: seq<Reader.Event>): seq<Reader.Event> {
    if events == [] then []
    else MessagesIn(events[..|events| - 1]) + if IsMessage(events[|events| - 1]) then [events[|events| - 1]] else []
  }

  lemma {:induction false} MessagesConcat(a: seq<Reader.Event>, b: seq<Reader.Event>)
    ensures MessagesIn(a + b) == MessagesIn(a) + MessagesIn(b)
  {
    var all := a + b;
    if b == [] {
      assert all == a;
    } else {
      var last := b[|b| - 1];
      assert all[..|all| - 1] == a + b[..|b| - 1];
      calc {
        MessagesIn(all);
        MessagesIn(a + b[..|b| - 1]) + if IsMessage(last) then [last] else [];
        { MessagesConcat(a, b[..|b| - 1]); }
        MessagesIn(a) + MessagesIn(b[..|b| - 1]) + if IsMessage(last) then [last] else [];
        MessagesIn(a) + MessagesIn(b);
      }
    }
  }

  lemma MessagesPrefix(a: seq<Reader.Event>, b: seq<Reader.Event>)
    requires a <= b
    ensures MessagesIn(a) <= MessagesIn(b)
  {
    assert b == a + b[|a|..];
    MessagesConcat(a, b[|a|..]);
  }

  /** The events of a chunk pass their messages on, up to a close. */
  lemma {:induction false} HandleEventsPasses(c: Connection, events: seq<Reader.Event>, o: Options)
    requires !c.closing
    ensures var h := HandleEvents(c, events, o);
      && h.pipe == c.pipe && h.taken == c.taken
      && h.passed <= c.passed + MessagesIn(events)
      && (!h.closing ==> h.passed == c.passed + MessagesIn(events))
  {
    hide HandleEvent, IsMessage;
    if events != [] {
      var before, last := events[..|events| - 1], events[|events| - 1];
      HandleEventsPasses(c, before, o);
      HandleEventPasses(HandleEvents(c, before, o), last, o);
      assert c.passed + (MessagesIn(before) + if IsMessage(last) then [last] else [])
          == c.passed + MessagesIn(before) + if IsMessage(last) then [last] else [];
    }
  }

  lemma HandleEventPasses(c: Connection, event: Reader.Event, o: Options)
    ensures var h := HandleEvent(c, event, o);
      && h.pipe == c.pipe && h.taken == c.taken
      && (c.closing ==> h.closing)
      && h.passed == c.passed + if !c.closing && IsMessage(event) then [event] else []
  {
  }

  function StreamEvents(c: Connection, o: Options): seq<Reader.Event> {
    Reader.ReceiveWhole(Reader.START, Flatten(c.taken), o.limitMessage, o.decode).0
  }

  ghost predicate PassedValid(c: Connection, o: Options) {
    && c.passed <= MessagesIn(StreamEvents(c, o))
    && (!c.closing ==>
          var all := Reader.ReceiveAll(Reader.PIPE_START, c.taken, o.limitMessage, o.decode);
          && all == Reader.Received(c.pipe, all.events, None)
          && Parser.Valid(c.pipe.parser, o.limitMessage)
          && c.passed == MessagesIn(all.events))
  }

  lemma {:induction false} ReceiveOneMore(w: Reader.Pipe, chunks: seq<seq<Byte>>, chunk: seq<Byte>, max: nat,
          decode: Reader.Decoder)
    requires Reader.ReceiveAll(w, chunks, max, decode).error.None?
    ensures var before := Reader.ReceiveAll(w, chunks, max, decode);
      var last := Reader.Receive(before.state, chunk, max, decode);
      Reader.ReceiveAll(w, chunks + [chunk], max, decode)
        == Reader.Received(last.state, before.events + last.events, last.error)
    decreases |chunks|
  {
    hide Reader.Receive;
    var all := chunks + [chunk];
    if chunks == [] {
      assert all[1..] == [];
      var last := Reader.Receive(w, chunk, max, decode);
      assert last.events + [] == last.events == [] + last.events;
      if last.error.Some? {
        assert Reader.ReceiveAll(w, all, max, decode) == last;
      }
    } else {
      assert all[1..] == chunks[1..] + [chunk];
      var first := Reader.Receive(w, chunks[0], max, decode);
      ReceiveOneMore(first.state, chunks[1..], chunk, max, decode);
    }
  }

  /** The events of the stream, from those of the chunks. */
  lemma StreamOfChunks(chunks: seq<seq<Byte>>, o: Options)
    ensures var all := Reader.ReceiveAll(Reader.PIPE_START, chunks, o.limitMessage, o.decode);
      && all.events <= Reader.ReceiveWhole(Reader.START, Flatten(chunks), o.limitMessage, o.decode).0
  {
    Parser.StartValid(o.limitMessage);
    Reader.EventsDoNotDependOnChunks(Reader.PIPE_START, chunks, o.limitMessage, o.decode);
    assert Flatten(Reader.PIPE_START.parser.chunks) + Flatten(chunks) == Flatten(chunks);
  }

  lemma ParserStaysValid(w: Reader.Pipe, chunk: seq<Byte>, max: nat, decode: Reader.Decoder)
    requires Parser.Valid(w.parser, max) && Reader.Receive(w, chunk, max, decode).error.None?
    ensures Parser.Valid(Reader.Receive(w, chunk, max, decode).state.parser, max)
  {
    hide Parser.Valid, Parser.Push, Reader.ReadFrames;
    Parser.PushParses(w.parser, chunk, max);
  }

  lemma ReceivePasses(c: Connection, chunk: seq<Byte>, now: int, o: Options)
    requires PassedValid(c, o)
    ensures PassedValid(Receive(c, chunk, now, o), o)
  {
    hide Reader.Receive, Reader.ReceiveAll, Reader.ReceiveWhole, HandleEvents, MessagesIn, Parser.Valid;
    if c.isOpen && !c.closing {
      var received := Reader.Receive(c.pipe, chunk, o.limitMessage, o.decode);
      var read := c.(pipe := received.state, lastReceived := now, taken := c.taken + [chunk]);
      ReceiveOneMore(Reader.PIPE_START, c.taken, chunk, o.limitMessage, o.decode);
      StreamOfChunks(read.taken, o);
      var all := Reader.ReceiveAll(Reader.PIPE_START, c.taken, o.limitMessage, o.decode);
      MessagesConcat(all.events, received.events);
      MessagesPrefix(all.events + received.events, StreamEvents(read, o));
      HandleEventsPasses(read, received.events, o);
      if received.error.None? {
        ParserStaysValid(c.pipe, chunk, o.limitMessage, o.decode);
      }
    }
  }

  lemma StepPasses(c: Connection, e: Event, o: Options)
    requires PassedValid(c, o)
    ensures PassedValid(Step(c, e, o), o)
  {
    hide Receive, Reader.ReceiveAll, Reader.ReceiveWhole, MessagesIn, Parser.Valid;
    if e.Receives? {
      ReceivePasses(c, e.chunk, e.now, o);
    } else {
      OtherSteps(c, e, o);
    }
  }

  /** Closing and writing leave alone what was read and passed on. */
  lemma ClosePasses(c: Connection, code: Option<nat>)
    ensures var after := Close(c, code);
      after.taken == c.taken && after.passed == c.passed && after.pipe == c.pipe && after.closing
  {
  }

  lemma WritePasses(c: Connection, frame: Out)
    ensures var after := Write(c, frame);
      after.taken == c.taken && after.passed == c.passed && after.pipe == c.pipe && after.closing == c.closing
  {
  }

  lemma OtherSteps(c: Connection, e: Event, o: Options)
    requires !e.Receives?
    ensures var after := Step(c, e, o);
      after.taken == c.taken && after.passed == c.passed && after.pipe == c.pipe && (c.closing ==> after.closing)
  {
    hide Receive, Close, Write, IsFull;
    match e
    case Opens(_) =>
    case Acknowledges =>
    case Sends(id, _) =>
      ClosePasses(c, Some(POLICY));
      WritePasses(c, DataFrame(id));
    case Closes(code) => ClosePasses(c, code);
    case KeepsAlive(_) =>
      ClosePasses(c, Some(GOING_AWAY));
      WritePasses(c, PingFrame);
    case IsLost =>
  }

  /**
   * In every run the worker gets the messages of the stream in order, each once, however the stream was cut into
   * chunks: all of those in the chunks taken as long as the connection is not closing, and none after the close.
   */
  lemma {:induction false} WorkerGetsTheMessages(events: seq<Event>, o: Options)
    ensures PassedValid(Run(events, o), o)
  {
    hide Step, PassedValid;
    if events == [] {
      StartPasses(o);
    } else {
      WorkerGetsTheMessages(events[..|events| - 1], o);
      StepPasses(Run(events[..|events| - 1], o), events[|events| - 1], o);
    }
  }

  lemma StartPasses(o: Options)
    ensures PassedValid(START, o)
  {
    StreamOfChunks([], o);
    Parser.StartValid(o.limitMessage);
  }

  lemma ClosingStep(c: Connection, e: Event, o: Options)
    requires c.closing && OutValid(c)
    ensures var after := Step(c, e, o);
      after.closing && OutValid(after) && after.passed == c.passed && after.out == c.out
  {
  }

  lemma RunOneMore(events: seq<Event>, e: Event, o: Options)
    ensures Run(events + [e], o) == Step(Run(events, o), e, o)
  {
    assert (events + [e])[..|events|] == events;
  }

  /** Once the connection is closing, nothing that happens passes a message to the worker or writes a frame any more. */
  lemma {:induction false} ClosingTakesNothing(events: seq<Event>, more: seq<Event>, o: Options)
    requires Run(events, o).closing
    ensures var before, after := Run(events, o), Run(events + more, o);
      after.closing && after.passed == before.passed && after.out == before.out
    decreases |more|
  {
    hide Run, Step, OutValid;
    if more == [] {
      assert events + more == events;
    } else {
      var fewer, last := more[..|more| - 1], more[|more| - 1];
      assert events + more == events + fewer + [last];
      ClosingTakesNothing(events, fewer, o);
      EveryRunIsSafe(events + fewer, o);
      RunOneMore(events + fewer, last, o);
      ClosingStep(Run(events + fewer, o), last, o);
    }
  }

  // ----- what is answered, and what waits for the worker -----

  predicate HasClose(events: seq<Reader.Event>) {
    exists i :: 0 <= i < |events| && events[i].CloseEvent?
  }

  /** A ping is answered with its data, and a close with its code, or a normal one. */
  function AnswerTo(event: Reader.Event): seq<Out> {
    match event
    case PingEvent(data) => [PongFrame(data)]
    case CloseEvent(Some(code), _) => [CloseFrame(Some(code))]
    case CloseEvent(None, _) => [CloseFrame(Some(1000))]
    case _ => []
  }

  /** The answers to the events up to the first close. */
  function Answers(events: seq<Reader.Event>): seq<Out> {
    if events == [] then []
    else
      var before, last := events[..|events| - 1], events[|events| - 1];
      Answers(before) + if HasClose(before) then [] else AnswerTo(last)
  }

  /** The messages up to the first close. */
  function MessagesUpToClose(events: seq<Reader.Event>): seq<Reader.Event> {
    if events == [] then []
    else
      var before, last := events[..|events| - 1], events[|events| - 1];
      MessagesUpToClose(before)
        + if !HasClose(before) && (last.TextMessage? || last.BinaryMessage?) then [last] else []
  }

  /** A text waits with its size in bytes. */
  function SizeIn(message: Reader.Event, o: Options): nat {
    match message
    case TextMessage(text) => o.byteLength(text)
    case BinaryMessage(data) => |data|
    case _ => 0
  }

  function Sizes(messages: seq<Reader.Event>, o: Options): (sizes: seq<nat>)
    ensures |sizes| == |messages|
  {
    seq(|messages|, i requires 0 <= i < |messages| => SizeIn(messages[i], o))
  }

  lemma CloseOneMore(events: seq<Reader.Event>)
    requires events != []
    ensures HasClose(events) <==> HasClose(events[..|events| - 1]) || events[|events| - 1].CloseEvent?
  {
    var before := events[..|events| - 1];
    assert forall i :: 0 <= i < |before| ==> before[i] == events[i];
  }

  /** What the events of a chunk do to an open connection. */
  lemma {:induction false} EventsAreAnswered(c: Connection, events: seq<Reader.Event>, o: Options)
    requires !c.closing
    ensures var h := HandleEvents(c, events, o);
      && (h.closing <==> HasClose(events))
      && h.writable == (c.writable && !h.closing)
      && h.out == c.out + (if c.writable then Answers(events) else [])
      && h.passed == c.passed + MessagesUpToClose(events)
      && h.unacknowledged == c.unacknowledged + Sizes(MessagesUpToClose(events), o)
      && h.taken == c.taken && h.lastReceived == c.lastReceived && h.isOpen == c.isOpen
  {
    hide HandleEvent, HasClose, Sizes, AnswerTo;
    if events == [] {
      NoneAreAnswered(o);
    } else {
      var before, last := events[..|events| - 1], events[|events| - 1];
      EventsAreAnswered(c, before, o);
      CloseOneMore(events);
      OneIsAnswered(HandleEvents(c, before, o), last, o);
      var message := if last.TextMessage? || last.BinaryMessage? then [last] else [];
      SizesConcat(MessagesUpToClose(before), message, o);
      AssocAll(c.out, Answers(before), AnswerTo(last));
      AssocAll(c.passed, MessagesUpToClose(before), message);
      AssocAll(c.unacknowledged, Sizes(MessagesUpToClose(before), o), Sizes(message, o));
    }
  }

  lemma AssocAll<T>(a: seq<T>, b: seq<T>, c: seq<T>)
    ensures a + b + c == a + (b + c) && a + [] == a && b + [] == b
  {
  }

  lemma NoneAreAnswered(o: Options)
    ensures !HasClose([]) && Sizes([], o) == []
  {
  }

  lemma SizesConcat(a: seq<Reader.Event>, b: seq<Reader.Event>, o: Options)
    ensures Sizes(a + b, o) == Sizes(a, o) + Sizes(b, o)
  {
  }

  lemma OneIsAnswered(c: Connection, event: Reader.Event, o: Options)
    ensures var h := HandleEvent(c, event, o);
      var message := if event.TextMessage? || event.BinaryMessage? then [event] else [];
      if c.closing then h == c
      else
        && (h.closing <==> event.CloseEvent?)
        && h.writable == (c.writable && !h.closing)
        && h.out == c.out + (if c.writable then AnswerTo(event) else [])
        && h.passed == c.passed + message
        && h.unacknowledged == c.unacknowledged + Sizes(message, o)
        && h.taken == c.taken && h.lastReceived == c.lastReceived && h.isOpen == c.isOpen
  {
  }

  /** When the client was last heard of, or the connection opened. */
  function LastHeard(events: seq<Event>): int {
    if events == [] then 0
    else
      var before, last := events[..|events| - 1], events[|events| - 1];
      match last
      case Opens(now) => now
      case Receives(_, now) => if IsOpened(before) then now else LastHeard(before)
      case _ => LastHeard(before)
  }

  predicate IsOpened(events: seq<Event>) {
    exists i :: 0 <= i < |events| && events[i].Opens?
  }

  /** The connection is closed with a code, which is written when the socket takes it. */
  predicate ClosedWith(c: Connection, after: Connection, code: Option<nat>) {
    after == c.(closing := true, paused := false, writable := false,
      out := if c.writable then c.out + [CloseFrame(code)] else c.out)
  }

  /** What an event does to a connection that is not closing. */
  ghost predicate DoesAsMeant(events: seq<Event>, e: Event, c: Connection, after: Connection, o: Options) {
    match e
    case Opens(_) => after == c.(isOpen := true, lastReceived := after.lastReceived)
    case Receives(chunk, now) =>
      if !IsOpened(events) then after == c
      else
        var received := Reader.Receive(c.pipe, chunk, o.limitMessage, o.decode);
        var read := c.(pipe := received.state, lastReceived := now, taken := c.taken + [chunk]);
        if received.error.Some? then ClosedWith(read, after, received.error)
        else
          && (after.closing <==> HasClose(received.events))
          && after.taken == read.taken
          && after.out == c.out + (if c.writable then Answers(received.events) else [])
          && after.passed == c.passed + MessagesUpToClose(received.events)
          && after.unacknowledged == c.unacknowledged + Sizes(MessagesUpToClose(received.events), o)
    case Acknowledges =>
      && after.unacknowledged == (if c.unacknowledged == [] then [] else c.unacknowledged[1..])
      && after.passed == c.passed && after.out == c.out && after.taken == c.taken && !after.closing
    case Sends(id, waiting) =>
      if !c.writable then after == c
      else if waiting <= 8 * 1024 * 1024 then after == c.(out := c.out + [DataFrame(id)])
      else ClosedWith(c, after, Some(1008))
    case Closes(code) => ClosedWith(c, after, code)
    case KeepsAlive(now) =>
      if o.idleTimeout > 0 && !c.paused && now >= LastHeard(events) + o.idleTimeout then
        ClosedWith(c, after, Some(1001))
      else if o.pingInterval > 0 && c.writable then after == c.(out := c.out + [PingFrame])
      else after == c
    case IsLost => after == c.(writable := false)
  }

  lemma {:induction false} HeardOf(events: seq<Event>, o: Options)
    ensures var c := Run(events, o);
      && (c.isOpen <==> IsOpened(events))
      && (!c.closing ==> c.lastReceived == LastHeard(events))
      && (c.writable <==> !c.closing && IsLost !in events)
  {
    hide Step;
    if events != [] {
      var before, e := events[..|events| - 1], events[|events| - 1];
      HeardOf(before, o);
      EveryRunIsSafe(before, o);
      assert events == before + [e];
      assert IsOpened(events) <==> IsOpened(before) || e.Opens? by {
        assert forall i :: 0 <= i < |before| ==> before[i] == events[i];
      }
      StepHears(Run(before, o), e, o);
    }
  }

  lemma StepHears(c: Connection, e: Event, o: Options)
    requires OutValid(c)
    ensures var after := Step(c, e, o);
      && (after.isOpen <==> c.isOpen || e.Opens?)
      && (c.closing ==> after.closing)
      && (after.writable <==> c.writable && !after.closing && !e.IsLost?)
      && (!after.closing ==> after.lastReceived == if e.Opens? || (e.Receives? && c.isOpen) then e.now
            else c.lastReceived)
  {
    hide Reader.Receive, HandleEvents, IsFull;
    if e.Receives? && c.isOpen && !c.closing {
      var received := Reader.Receive(c.pipe, e.chunk, o.limitMessage, o.decode);
      EventsAreAnswered(c.(pipe := received.state, lastReceived := e.now, taken := c.taken + [e.chunk]),
        received.events, o);
    }
  }

  /**
   * In every run of a connection that is not closing: pings are answered with their data, a close with its code or a
   * normal one, an error with its code, a client that reads too slowly with 1008 and an idle one with 1001; a message
   * waits for the worker with its own size, and nothing is read before the connection was opened.
   */
  lemma EveryEventDoesAsMeant(events: seq<Event>, e: Event, o: Options)
    requires !Run(events, o).closing
    ensures DoesAsMeant(events, e, Run(events, o), Run(events + [e], o), o)
  {
    hide Run, Step, DoesAsMeant, IsOpened, LastHeard;
    RunOneMore(events, e, o);
    HeardOf(events, o);
    EveryRunIsSafe(events, o);
    if e.Receives? {
      ReceiveDoes(events, e, Run(events, o), o);
    } else {
      OtherDoes(events, e, Run(events, o), o);
    }
  }

  lemma ReceiveDoes(events: seq<Event>, e: Event, c: Connection, o: Options)
    requires e.Receives? && !c.closing && (c.isOpen <==> IsOpened(events))
    ensures DoesAsMeant(events, e, c, Step(c, e, o), o)
  {
    hide Reader.Receive, HandleEvents, IsFull, IsOpened, HasClose, Answers, MessagesUpToClose, Sizes;
    if c.isOpen {
      var received := Reader.Receive(c.pipe, e.chunk, o.limitMessage, o.decode);
      EventsAreAnswered(c.(pipe := received.state, lastReceived := e.now, taken := c.taken + [e.chunk]),
        received.events, o);
    }
  }

  lemma OtherDoes(events: seq<Event>, e: Event, c: Connection, o: Options)
    requires !e.Receives? && !c.closing && c.lastReceived == LastHeard(events)
    ensures DoesAsMeant(events, e, c, Step(c, e, o), o)
  {
    hide Receive, LastHeard, IsFull;
  }

  /** In every run what waits for the worker are the sizes of the messages passed to it last. */
  lemma {:induction false} OldestAreAcknowledged(events: seq<Event>, o: Options)
    ensures IsWaiting(Run(events, o).unacknowledged, Run(events, o).passed, o)
  {
    hide Step, Sizes;
    if events == [] {
      NoneAreAnswered(o);
    } else {
      OldestAreAcknowledged(events[..|events| - 1], o);
      StepWaits(Run(events[..|events| - 1], o), events[|events| - 1], o);
    }
  }

  /** The sizes are those of the messages passed last. */
  predicate IsWaiting(unacknowledged: seq<nat>, passed: seq<Reader.Event>, o: Options) {
    |unacknowledged| <= |passed| && unacknowledged == Sizes(passed, o)[|passed| - |unacknowledged|..]
  }

  lemma StepWaits(c: Connection, e: Event, o: Options)
    requires IsWaiting(c.unacknowledged, c.passed, o)
    ensures IsWaiting(Step(c, e, o).unacknowledged, Step(c, e, o).passed, o)
  {
    hide Receive, Sizes, IsFull;
    match e
    case Receives(chunk, now) => ReceiveWaits(c, chunk, now, o);
    case _ =>
  }

  lemma ReceiveWaits(c: Connection, chunk: seq<Byte>, now: int, o: Options)
    requires IsWaiting(c.unacknowledged, c.passed, o)
    ensures IsWaiting(Receive(c, chunk, now, o).unacknowledged, Receive(c, chunk, now, o).passed, o)
  {
    hide Reader.Receive, HandleEvents, IsFull, Sizes, MessagesUpToClose, Answers, HasClose;
    if c.isOpen && !c.closing {
      var received := Reader.Receive(c.pipe, chunk, o.limitMessage, o.decode);
      EventsAreAnswered(c.(pipe := received.state, lastReceived := now, taken := c.taken + [chunk]),
        received.events, o);
      SizesConcat(c.passed, MessagesUpToClose(received.events), o);
    }
  }

  // ----- the code -----

  class WsSocket {
    const o: Options
    const read: Reader.Reader
    var unacknowledged: seq<nat>
    var unacknowledgedBytes: int
    var isOpen: bool
    var closing: bool
    var lastReceived: int
    /** The socket. */
    var paused: bool
    var writable: bool
    var out: seq<Out>
    ghost var passed: seq<Reader.Event>
    ghost var taken: seq<seq<Byte>>

    ghost function Model(): Connection
      reads this, read, read.parse
    {
      Connection(read.Model(), unacknowledged, unacknowledgedBytes, isOpen, closing, lastReceived, paused, writable,
        out, passed, taken)
    }

    ghost predicate Good()
      reads this, read, read.parse
    {
      read.maxMessage == o.limitMessage && read.decode == o.decode && (!closing ==> read.Good())
    }

    constructor (o: Options)
      ensures Good() && Model() == START && this.o == o && fresh(read) && fresh(read.parse)
    {
      this.o := o;
      read := new Reader.Reader(o.limitMessage, o.decode);
      unacknowledged, unacknowledgedBytes := [], 0;
      isOpen, closing, lastReceived := false, false, 0;
      paused, writable, out := false, true, [];
      passed, taken := [], [];
    }

    method WriteFrame(frame: Out)
      modifies this`out
      ensures out == if writable then old(out) + [frame] else old(out)
    {
      if writable {
        out := out + [frame];
      }
    }

    method CloseIt(code: Option<nat>)
      modifies this
      ensures Model() == Close(old(Model()), code)
    {
      if closing {
        return;
      }
      closing := true;
      paused := false;
      WriteFrame(CloseFrame(code));
      writable := false;
    }

    /** One event, while the connection is not closing. */
    method HandleOne(event: Reader.Event)
      requires Good()
      modifies this
      ensures Good() && Model() == HandleEvent(old(Model()), event, o)
    {
      hide Reader.Reader.Good;
      if closing {
        return;
      }
      match event
      case PingEvent(data) => WriteFrame(PongFrame(data));
      case PongEvent =>
      case CloseEvent(code, _) => CloseIt(Some(if code.Some? then code.value else NORMAL));
      case _ =>
        var size := SizeOf(event, o);
        unacknowledged := unacknowledged + [size];
        unacknowledgedBytes := unacknowledgedBytes + size;
        passed := passed + [event];
    }

    method HandleAll(events: seq<Reader.Event>)
      requires Good()
      modifies this
      ensures Good() && Model() == HandleEvents(old(Model()), events, o)
    {
      hide Reader.Reader.Good, HandleEvent;
      assert events[..0] == [];
      for i := 0 to |events|
        invariant Good() && Model() == HandleEvents(old(Model()), events[..i], o)
      {
        assert events[..i + 1][..i] == events[..i];
        HandleOne(events[i]);
      }
      assert events[..|events|] == events;
    }

    method OnChunk(chunk: seq<Byte>, now: int)
      requires Good()
      modifies this, read, read.parse
      ensures Good() && Model() == Receive(old(Model()), chunk, now, o)
    {
      hide Reader.Receive, HandleEvents, Reader.Reader.Good;
      if !isOpen || closing {
        return;
      }
      lastReceived := now;
      taken := taken + [chunk];
      var events, error := read.ReadChunk(chunk);
      if error.Some? {
        CloseIt(error);
      } else {
        HandleAll(events);
      }
      if !closing && (|unacknowledged| >= WINDOW_MESSAGES || unacknowledgedBytes >= WINDOW_BYTES) {
        paused := true;
      }
    }

    method OnAcknowledge()
      requires Good()
      modifies this
      ensures Good() && Model() == Acknowledge(old(Model()))
    {
      if unacknowledged != [] {
        unacknowledgedBytes := unacknowledgedBytes - unacknowledged[0];
        unacknowledged := unacknowledged[1..];
      }
      if !closing && !(|unacknowledged| >= WINDOW_MESSAGES || unacknowledgedBytes >= WINDOW_BYTES) {
        paused := false;
      }
    }

    method SendData(id: nat, waiting: nat) returns (written: bool)
      requires Good()
      modifies this
      ensures Good() && Model() == Send(old(Model()), id, waiting)
      ensures written == (!old(closing) && old(writable) && waiting <= SEND_BUFFER)
    {
      if closing || !writable {
        return false;
      }
      if waiting > SEND_BUFFER {
        CloseIt(Some(POLICY));
        return false;
      }
      WriteFrame(DataFrame(id));
      return true;
    }

    method OnKeepAlive(now: int)
      requires Good()
      modifies this
      ensures Good() && Model() == KeepAlive(old(Model()), now, o)
    {
      if closing {
        return;
      }
      if o.idleTimeout > 0 && !paused && now - lastReceived >= o.idleTimeout {
        CloseIt(Some(GOING_AWAY));
        return;
      }
      if o.pingInterval > 0 {
        WriteFrame(PingFrame);
      }
    }
  }
}
