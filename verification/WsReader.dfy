/** From the frames a client sends to events: messages put together, pings, pongs and the close. */
module WsReader {
  import opened Bytes
  import opened Collections
  import opened WsFrames
  import Parser = WsFrameParser

  /** Strict UTF-8 decoding: nothing for bytes that are not valid. */
  type Decoder = seq<Byte> -> Option<string>

  datatype Event =
    | TextMessage(text: string)
    | BinaryMessage(data: seq<Byte>)
    | PingEvent(data: seq<Byte>)
    | PongEvent
    | CloseEvent(code: Option<nat>, reason: string)

  /**
   * An open message: its payloads so far, their total size, and the opcode of its first frame, which is none between
   * messages.
   */
  datatype State = State(fragments: seq<seq<Byte>>, size: nat, opcode: Option<Byte>)

  const START := State([], 0, None)

  /** The events of some frames, up to the one that threw, and its close code. */
  datatype Read = Read(state: State, events: seq<Event>, error: Option<nat>)

  predicate IsValidCloseCode(code: nat) {
    (1000 <= code <= 1014 && code !in {1004, 1005, 1006}) || 3000 <= code <= 4999
  }

  datatype Outcome = Gives(event: Event) | Throws(code: nat)

  function ReadClose(payload: seq<Byte>, decode: Decoder): Outcome {
    if |payload| == 0 then Gives(CloseEvent(None, ""))
    else if |payload| == 1 then Throws(PROTOCOL_ERROR)
    else
      var code := ReadUInt16(payload, 0);
      if !IsValidCloseCode(code) then Throws(PROTOCOL_ERROR)
      else match decode(payload[2..])
        case None => Throws(INVALID_DATA)
        case Some(reason) => Gives(CloseEvent(Some(code), reason))
  }

  /** The event of a whole message. */
  function Finish(opcode: Byte, data: seq<Byte>, decode: Decoder): Outcome {
    if opcode != TEXT then Gives(BinaryMessage(data))
    else match decode(data)
      case None => Throws(INVALID_DATA)
      case Some(text) => Gives(TextMessage(text))
  }

  function ReadData(s: State, frame: Frame, maxMessage: nat, decode: Decoder): Read {
    if (frame.opcode == CONTINUATION) == s.opcode.None? then Read(s, [], Some(PROTOCOL_ERROR))
    else
      var opcode := if s.opcode.Some? then s.opcode.value else frame.opcode;
      var grown := State(s.fragments + [frame.payload], s.size + |frame.payload|, Some(opcode));
      if maxMessage > 0 && grown.size > maxMessage then Read(grown, [], Some(TOO_BIG))
      else if !frame.fin then Read(grown, [], None)
      else match Finish(opcode, Flatten(grown.fragments), decode)
        case Gives(event) => Read(START, [event], None)
        case Throws(code) => Read(START, [], Some(code))
  }

  /** The outcome of a control frame. */
  function ReadControl(frame: Frame, decode: Decoder): Outcome {
    if frame.opcode == PING then Gives(PingEvent(frame.payload))
    else if frame.opcode == PONG then Gives(PongEvent)
    else ReadClose(frame.payload, decode)
  }

  predicate IsControl(opcode: Byte) {
    opcode in {CLOSE, PING, PONG}
  }

  function ReadFrameEvents(s: State, frame: Frame, maxMessage: nat, decode: Decoder): Read {
    if !IsControl(frame.opcode) then ReadData(s, frame, maxMessage, decode)
    else match ReadControl(frame, decode)
      case Gives(event) => Read(s, [event], None)
      case Throws(code) => Read(s, [], Some(code))
  }

  function ReadFrames(s: State, frames: seq<Frame>, maxMessage: nat, decode: Decoder): Read
    decreases |frames|
  {
    if frames == [] then Read(s, [], None)
    else
      var first := ReadFrameEvents(s, frames[0], maxMessage, decode);
      if first.error.Some? then first
      else
        var others := ReadFrames(first.state, frames[1..], maxMessage, decode);
        Read(others.state, first.events + others.events, others.error)
  }

  lemma {:induction false} ReadFramesConcat(s: State, a: seq<Frame>, b: seq<Frame>, maxMessage: nat, decode: Decoder)
    ensures var first, all := ReadFrames(s, a, maxMessage, decode), ReadFrames(s, a + b, maxMessage, decode);
      if first.error.Some? then all == first
      else
        var others := ReadFrames(first.state, b, maxMessage, decode);
        all == Read(others.state, first.events + others.events, others.error)
    decreases |a|
  {
    hide ReadFrameEvents;
    if a == [] {
      assert a + b == b;
      assert [] + ReadFrames(s, b, maxMessage, decode).events == ReadFrames(s, b, maxMessage, decode).events;
    } else {
      assert (a + b)[1..] == a[1..] + b;
      var first := ReadFrameEvents(s, a[0], maxMessage, decode);
      ReadFramesConcat(first.state, a[1..], b, maxMessage, decode);
    }
  }

  // ----- messages in fragments -----

  /** A piece of a message, and the control frames sent right before it. */
  datatype Piece = Piece(payload: seq<Byte>, before: seq<Frame>)

  /** A message cut into pieces, at least one. */
  datatype Message = Message(isText: bool, pieces: seq<Piece>)

  /** The frames of the pieces from one on, which a message or its continuation starts with. */
  function PieceFrames(opcode: Byte, pieces: seq<Piece>): seq<Frame>
    requires pieces != []
    decreases |pieces|
  {
    var frames := pieces[0].before + [Frame(|pieces| == 1, opcode, pieces[0].payload)];
    if |pieces| == 1 then frames else frames + PieceFrames(0, pieces[1..])
  }

  function Data(pieces: seq<Piece>): seq<Byte>
    decreases |pieces|
  {
    if pieces == [] then [] else pieces[0].payload + Data(pieces[1..])
  }

  function Opcode(message: Message): Byte {
    if message.isText then 1 else 2
  }

  /** The codes a close frame may carry (RFC 6455, section 7.4): registered, of a library or of an application. */
  predicate MayBeSent(code: nat) {
    code in {1000, 1001, 1002, 1003, 1007, 1008, 1009, 1010, 1011, 1012, 1013, 1014}
    || 3000 <= code <= 3999 || 4000 <= code <= 4999
  }

  function CodeIn(payload: seq<Byte>): nat
    requires |payload| >= 2
  {
    256 * (payload[0] as nat) + payload[1] as nat
  }

  /** A control frame that breaks no rule: a close is empty, or has such a code and behind it a reason in UTF-8. */
  predicate ControlFine(frame: Frame, decode: Decoder) {
    || frame.opcode == 9
    || frame.opcode == 10
    || (frame.opcode == 8 && (frame.payload == []
          || (|frame.payload| >= 2 && MayBeSent(CodeIn(frame.payload)) && decode(frame.payload[2..]).Some?)))
  }

  /** What the client means by it: a ping with its data, a pong, or a close with its code and reason. */
  function ControlMeans(frame: Frame, decode: Decoder): Event
    requires ControlFine(frame, decode)
  {
    match frame.opcode
    case 9 => PingEvent(frame.payload)
    case 10 => PongEvent
    case _ =>
      if frame.payload == [] then CloseEvent(None, "")
      else CloseEvent(Some(CodeIn(frame.payload)), decode(frame.payload[2..]).value)
  }

  function ControlEvents(frames: seq<Frame>, decode: Decoder): seq<Event>
    requires forall i :: 0 <= i < |frames| ==> ControlFine(frames[i], decode)
  {
    if frames == [] then [] else [ControlMeans(frames[0], decode)] + ControlEvents(frames[1..], decode)
  }

  /** Control frames that break no rule stand before the pieces. */
  predicate ControlsFine(pieces: seq<Piece>, decode: Decoder) {
    forall k :: 0 <= k < |pieces| ==>
      forall i :: 0 <= i < |pieces[k].before| ==> ControlFine(pieces[k].before[i], decode)
  }

  function ControlsBetween(pieces: seq<Piece>, decode: Decoder): seq<Event>
    requires ControlsFine(pieces, decode)
    decreases |pieces|
  {
    if pieces == [] then []
    else
      assert forall i :: 0 <= i < |pieces[0].before| ==> ControlFine(pieces[0].before[i], decode);
      ControlEvents(pieces[0].before, decode) + ControlsBetween(pieces[1..], decode)
  }

  /** A message that breaks no rule: within the limit, and valid UTF-8 when it is a text. */
  predicate MessageFine(message: Message, maxMessage: nat, decode: Decoder) {
    && message.pieces != []
    && ControlsFine(message.pieces, decode)
    && (maxMessage > 0 ==> |Data(message.pieces)| <= maxMessage)
    && (message.isText ==> decode(Data(message.pieces)).Some?)
  }

  /** What the client means by it: its text, or its bytes. */
  function MessageMeans(message: Message, decode: Decoder): Event
    requires message.isText ==> decode(Data(message.pieces)).Some?
  {
    if message.isText then TextMessage(decode(Data(message.pieces)).value) else BinaryMessage(Data(message.pieces))
  }

  predicate AllFine(messages: seq<Message>, maxMessage: nat, decode: Decoder) {
    forall i :: 0 <= i < |messages| ==> MessageFine(messages[i], maxMessage, decode)
  }

  function Frames(messages: seq<Message>): seq<Frame>
    requires forall i :: 0 <= i < |messages| ==> messages[i].pieces != []
  {
    if messages == [] then [] else PieceFrames(Opcode(messages[0]), messages[0].pieces) + Frames(messages[1..])
  }

  /** The events a client means: of every message, the control events in their places and then the message. */
  function Meant(messages: seq<Message>, maxMessage: nat, decode: Decoder): seq<Event>
    requires AllFine(messages, maxMessage, decode)
  {
    if messages == [] then []
    else
      assert MessageFine(messages[0], maxMessage, decode);
      ControlsBetween(messages[0].pieces, decode)
        + [MessageMeans(messages[0], decode)]
        + Meant(messages[1..], maxMessage, decode)
  }

  /** A control frame is read as what it means, and refused exactly when it breaks a rule. */
  lemma ControlIsRead(frame: Frame, decode: Decoder)
    requires IsControl(frame.opcode)
    ensures ControlFine(frame, decode) ==> ReadControl(frame, decode) == Gives(ControlMeans(frame, decode))
    ensures !ControlFine(frame, decode) ==> ReadControl(frame, decode) == Throws(
      if |frame.payload| == 1 || !MayBeSent(CodeIn(frame.payload)) then 1002 else 1007)
  {
  }

  lemma {:induction false} ReadControls(s: State, frames: seq<Frame>, maxMessage: nat, decode: Decoder)
    requires forall i :: 0 <= i < |frames| ==> ControlFine(frames[i], decode)
    ensures ReadFrames(s, frames, maxMessage, decode) == Read(s, ControlEvents(frames, decode), None)
    decreases |frames|
  {
    hide ReadControl, ReadData, ControlMeans;
    if frames != [] {
      assert ControlFine(frames[0], decode);
      ControlIsRead(frames[0], decode);
      ReadControls(s, frames[1..], maxMessage, decode);
    }
  }

  /** The pieces of a message that are still to come, read in a state that holds the ones before them. */
  lemma {:induction false} ReadPieces(s: State, opcode: Byte, first: Byte, pieces: seq<Piece>, maxMessage: nat,
          decode: Decoder)
    requires pieces != [] && ControlsFine(pieces, decode)
    requires if s.opcode.Some? then first == CONTINUATION && s.opcode.value == opcode
      else first == opcode && s == START && opcode != CONTINUATION
    requires !IsControl(first) && s.size == |Flatten(s.fragments)|
    requires maxMessage > 0 ==> s.size + |Data(pieces)| <= maxMessage
    requires Finish(opcode, Flatten(s.fragments) + Data(pieces), decode).Gives?
    ensures ReadFrames(s, PieceFrames(first, pieces), maxMessage, decode) ==
      Read(START, ControlsBetween(pieces, decode) + [Finish(opcode, Flatten(s.fragments) + Data(pieces), decode).event],
        None)
    decreases |pieces|
  {
    hide ControlFine, ControlMeans, Finish, ReadData, ControlEvents, ReadFrames;
    var piece, held := pieces[0], Flatten(s.fragments);
    var frame := Frame(|pieces| == 1, first, piece.payload);
    FirstControls(pieces, decode);
    ReadControls(s, piece.before, maxMessage, decode);
    if |pieces| == 1 {
      assert Data(pieces) == piece.payload + Data(pieces[1..]) == piece.payload;
      ReadPiece(s, opcode, frame, [], maxMessage, decode);
      ReadFramesConcat(s, piece.before, [frame], maxMessage, decode);
    } else {
      var grown := State(s.fragments + [piece.payload], s.size + |piece.payload|, Some(opcode));
      ReadPiece(s, opcode, frame, Data(pieces[1..]), maxMessage, decode);
      ReadFramesConcat(s, piece.before, [frame], maxMessage, decode);
      FlattenPush(s.fragments, piece.payload);
      assert held + piece.payload + Data(pieces[1..]) == held + Data(pieces);
      ReadPieces(grown, opcode, CONTINUATION, pieces[1..], maxMessage, decode);
      ReadFramesConcat(s, piece.before + [frame], PieceFrames(CONTINUATION, pieces[1..]), maxMessage, decode);
    }
  }

  lemma FirstControls(pieces: seq<Piece>, decode: Decoder)
    requires pieces != [] && ControlsFine(pieces, decode)
    ensures forall i :: 0 <= i < |pieces[0].before| ==>
      ControlFine(pieces[0].before[i], decode)
    ensures ControlsFine(pieces[1..], decode)
    ensures ControlsBetween(pieces, decode)
      == ControlEvents(pieces[0].before, decode) + ControlsBetween(pieces[1..], decode)
  {
    hide ControlFine, ControlMeans;
  }

  /** One frame of a message, with the bytes that are still to come after it. */
  lemma ReadPiece(s: State, opcode: Byte, frame: Frame, later: seq<Byte>, maxMessage: nat, decode: Decoder)
    requires if s.opcode.Some? then frame.opcode == CONTINUATION && s.opcode.value == opcode
      else frame.opcode == opcode && s == START && opcode != CONTINUATION
    requires !IsControl(frame.opcode) && s.size == |Flatten(s.fragments)|
    requires maxMessage > 0 ==> s.size + |frame.payload| + |later| <= maxMessage
    requires frame.fin ==> Finish(opcode, Flatten(s.fragments) + frame.payload, decode).Gives?
    ensures ReadFrames(s, [frame], maxMessage, decode) ==
      if frame.fin then Read(START, [Finish(opcode, Flatten(s.fragments) + frame.payload, decode).event], None)
      else Read(State(s.fragments + [frame.payload], s.size + |frame.payload|, Some(opcode)), [], None)
  {
    FlattenPush(s.fragments, frame.payload);
    assert [frame][1..] == [];
    var first := ReadFrameEvents(s, frame, maxMessage, decode);
    assert ReadFrames(first.state, [], maxMessage, decode) == Read(first.state, [], None);
    assert first.events + [] == first.events;
  }

  /**
   * Messages cut into any fragments, with any control frames between them, come out as exactly those messages, in order
   * and with the control events in their places, and nothing is left over.
   */
  lemma {:induction false} FragmentsComeOutWhole(messages: seq<Message>, maxMessage: nat, decode: Decoder)
    requires AllFine(messages, maxMessage, decode)
    ensures ReadFrames(START, Frames(messages), maxMessage, decode)
      == Read(START, Meant(messages, maxMessage, decode), None)
  {
    hide ReadFrames, Finish, PieceFrames;
    if messages == [] {
      NoFrames(maxMessage, decode);
    } else {
      var message := messages[0];
      assert MessageFine(message, maxMessage, decode);
      assert Flatten<Byte>([]) + Data(message.pieces) == Data(message.pieces);
      FinishMeans(Opcode(message), Data(message.pieces), decode);
      ReadPieces(START, Opcode(message), Opcode(message), message.pieces, maxMessage, decode);
      FragmentsComeOutWhole(messages[1..], maxMessage, decode);
      ReadFramesConcat(START, PieceFrames(Opcode(message), message.pieces), Frames(messages[1..]), maxMessage, decode);
    }
  }

  lemma NoFrames(maxMessage: nat, decode: Decoder)
    ensures ReadFrames(START, [], maxMessage, decode) == Read(START, [], None)
  {
  }

  // ----- what is accepted, told from the frames alone -----

  /** The last frame of a message among the frames, control frames left out. */
  function LastData(frames: seq<Frame>): Option<Frame> {
    if frames == [] then None
    else if IsControl(frames[|frames| - 1].opcode) then LastData(frames[..|frames| - 1])
    else Some(frames[|frames| - 1])
  }

  predicate InMessage(frames: seq<Frame>) {
    LastData(frames).Some? && !LastData(frames).value.fin
  }

  /** The payload bytes of the message the frames leave open. */
  function Held(frames: seq<Frame>): seq<Byte> {
    if frames == [] then []
    else
      var before, last := frames[..|frames| - 1], frames[|frames| - 1];
      if IsControl(last.opcode) then Held(before) else if last.fin then [] else Held(before) + last.payload
  }

  function BeganWith(frames: seq<Frame>): Byte {
    if frames == [] then 0
    else
      var before, last := frames[..|frames| - 1], frames[|frames| - 1];
      if IsControl(last.opcode) || last.opcode == 0 then BeganWith(before) else last.opcode
  }

  /** The frame may follow the ones before it (RFC 6455, sections 5.4 and 5.5). */
  predicate Fits(before: seq<Frame>, frame: Frame, maxMessage: nat, decode: Decoder) {
    if IsControl(frame.opcode) then ControlFine(frame, decode)
    else
      && (frame.opcode == 0 <==> InMessage(before))
      && (maxMessage > 0 ==> |Held(before)| + |frame.payload| <= maxMessage)
      && (frame.fin && (if InMessage(before) then BeganWith(before) else frame.opcode) == 1 ==>
            decode(Held(before) + frame.payload).Some?)
  }

  /** What it is refused with otherwise: a protocol error, a message that is too big, or a text that is not UTF-8. */
  function Refusal(before: seq<Frame>, frame: Frame, maxMessage: nat): nat {
    if IsControl(frame.opcode) then
      if |frame.payload| < 2 || !MayBeSent(CodeIn(frame.payload)) then 1002 else 1007
    else if (frame.opcode == 0) != InMessage(before) then 1002
    else if maxMessage > 0 && |Held(before)| + |frame.payload| > maxMessage then 1009
    else 1007
  }

  predicate AllFit(frames: seq<Frame>, maxMessage: nat, decode: Decoder) {
    forall i :: 0 <= i < |frames| ==> Fits(frames[..i], frames[i], maxMessage, decode)
  }

  /** The event of a frame that fits: of a control frame, or of the message it ends. */
  function EventOf(before: seq<Frame>, frame: Frame, maxMessage: nat, decode: Decoder): seq<Event>
    requires Fits(before, frame, maxMessage, decode)
  {
    if IsControl(frame.opcode) then [ControlMeans(frame, decode)]
    else if !frame.fin then []
    else
      var data := Held(before) + frame.payload;
      if (if InMessage(before) then BeganWith(before) else frame.opcode) == 1 then [TextMessage(decode(data).value)]
      else [BinaryMessage(data)]
  }

  /** What the frames are to be read as, up to the first that does not fit. */
  function Expected(frames: seq<Frame>, maxMessage: nat, decode: Decoder): (seq<Event>, Option<nat>) {
    if frames == [] then ([], None)
    else
      var before, last := frames[..|frames| - 1], frames[|frames| - 1];
      var (events, error) := Expected(before, maxMessage, decode);
      if error.Some? then (events, error)
      else if Fits(before, last, maxMessage, decode) then
        (events + EventOf(before, last, maxMessage, decode), None)
      else (events, Some(Refusal(before, last, maxMessage)))
  }

  /** The fields of the reader after the frames. */
  predicate Holds(s: State, frames: seq<Frame>, maxMessage: nat) {
    && (s.opcode.Some? <==> InMessage(frames))
    && (s.opcode.Some? ==> s.opcode.value == BeganWith(frames))
    && (s.opcode.None? ==> s == START)
    && Flatten(s.fragments) == Held(frames)
    && s.size == |Held(frames)|
    && (maxMessage > 0 ==> s.size <= maxMessage)
  }

  /** A frame is refused exactly when it does not fit. */
  lemma FrameFits(s: State, before: seq<Frame>, frame: Frame, maxMessage: nat, decode: Decoder)
    requires Holds(s, before, maxMessage)
    ensures var read := ReadFrameEvents(s, frame, maxMessage, decode);
      && read.error == (if Fits(before, frame, maxMessage, decode) then None
           else Some(Refusal(before, frame, maxMessage)))
      && read.events == (if Fits(before, frame, maxMessage, decode) then EventOf(before, frame, maxMessage, decode)
           else [])
      && (read.error.None? ==> Holds(read.state, before + [frame], maxMessage))
  {
    hide ReadControl, Finish, Held, BeganWith, LastData;
    if IsControl(frame.opcode) {
      ControlIsRead(frame, decode);
    }
    FinishMeans(if s.opcode.Some? then s.opcode.value else frame.opcode, Held(before) + frame.payload, decode);
    HistoryPush(before, frame);
    FlattenPush(s.fragments, frame.payload);
    if s.opcode.None? {
      assert s.fragments + [frame.payload] == [frame.payload];
    }
  }

  lemma FinishMeans(opcode: Byte, data: seq<Byte>, decode: Decoder)
    ensures Finish(opcode, data, decode) ==
      if opcode != 1 then Gives(BinaryMessage(data))
      else if decode(data).Some? then Gives(TextMessage(decode(data).value)) else Throws(1007)
  {
  }

  lemma HistoryPush(before: seq<Frame>, frame: Frame)
    ensures var frames := before + [frame];
      && InMessage(frames) == (if IsControl(frame.opcode) then InMessage(before) else !frame.fin)
      && Held(frames) == (if IsControl(frame.opcode) then Held(before) else if frame.fin then []
        else Held(before) + frame.payload)
      && BeganWith(frames) == (if IsControl(frame.opcode) || frame.opcode == 0 then BeganWith(before)
        else frame.opcode)
  {
    var frames := before + [frame];
    assert frames[..|frames| - 1] == before;
  }

  /**
   * The reader throws exactly when some frame does not fit the ones before it: a continuation outside a message and a
   * new message inside one never do. As long as it does not throw, it holds the bytes of the open message, whose size
   * it counts right and within the limit. What it gives, and the code it throws, are those the frames are to be read
   * as.
   */
  lemma {:induction false} AcceptsWhatFits(frames: seq<Frame>, maxMessage: nat, decode: Decoder)
    ensures var read := ReadFrames(START, frames, maxMessage, decode);
      && (read.error.None? <==> AllFit(frames, maxMessage, decode))
      && (read.events, read.error) == Expected(frames, maxMessage, decode)
      && (read.error.None? ==> Holds(read.state, frames, maxMessage))
  {
    hide ReadFrameEvents, Fits, Holds, EventOf, Refusal;
    if frames == [] {
      NothingHeld(maxMessage);
    } else {
      var before, last := frames[..|frames| - 1], frames[|frames| - 1];
      AcceptsWhatFits(before, maxMessage, decode);
      ReadFramesConcat(START, before, [last], maxMessage, decode);
      assert before + [last] == frames;
      FitsLast(frames, maxMessage, decode);
      var read := ReadFrames(START, before, maxMessage, decode);
      assert read.events + [] == read.events;
      if read.error.None? {
        FrameFits(read.state, before, last, maxMessage, decode);
        ReadOne(read.state, last, maxMessage, decode);
      }
    }
  }

  lemma NothingHeld(maxMessage: nat)
    ensures Holds(START, [], maxMessage)
  {
  }

  lemma ReadOne(s: State, frame: Frame, maxMessage: nat, decode: Decoder)
    ensures ReadFrames(s, [frame], maxMessage, decode) == ReadFrameEvents(s, frame, maxMessage, decode)
  {
    hide ReadFrameEvents;
    var first := ReadFrameEvents(s, frame, maxMessage, decode);
    assert [frame][1..] == [];
    assert ReadFrames(first.state, [], maxMessage, decode) == Read(first.state, [], None);
    assert first.events + [] == first.events;
  }

  lemma FitsLast(frames: seq<Frame>, maxMessage: nat, decode: Decoder)
    requires frames != []
    ensures AllFit(frames, maxMessage, decode) <==>
      AllFit(frames[..|frames| - 1], maxMessage, decode)
        && Fits(frames[..|frames| - 1], frames[|frames| - 1], maxMessage, decode)
  {
    hide Fits;
    var before := frames[..|frames| - 1];
    assert forall i :: 0 <= i < |before| ==> before[..i] == frames[..i] && before[i] == frames[i];
  }

  // ----- the parser and the reader together -----

  /** Between two chunks. */
  datatype Pipe = Pipe(parser: Parser.State, reader: State)

  const PIPE_START := Pipe(Parser.START, START)

  /** The events of a chunk, none of them when it throws. */
  datatype Received = Received(state: Pipe, events: seq<Event>, error: Option<nat>)

  function Receive(w: Pipe, chunk: seq<Byte>, maxMessage: nat, decode: Decoder): Received {
    var pushed := Parser.Push(w.parser, chunk, maxMessage);
    if pushed.error.Some? then Received(Pipe(pushed.state, w.reader), [], pushed.error)
    else
      var read := ReadFrames(w.reader, pushed.frames, maxMessage, decode);
      Received(Pipe(pushed.state, read.state), if read.error.Some? then [] else read.events, read.error)
  }

  function ReceiveAll(w: Pipe, chunks: seq<seq<Byte>>, maxMessage: nat, decode: Decoder): Received
    decreases |chunks|
  {
    if chunks == [] then Received(w, [], None)
    else
      var first := Receive(w, chunks[0], maxMessage, decode);
      if first.error.Some? then first
      else
        var others := ReceiveAll(first.state, chunks[1..], maxMessage, decode);
        Received(others.state, first.events + others.events, others.error)
  }

  /** The chunk throws, after events that are those of the chunks before it. */
  predicate ThrowsAt(w: Pipe, chunks: seq<seq<Byte>>, k: nat, events: seq<Event>, maxMessage: nat, decode: Decoder) {
    && k < |chunks|
    && ReceiveAll(w, chunks[..k], maxMessage, decode).error.None?
    && ReceiveAll(w, chunks[..k], maxMessage, decode).events == events
    && ReceiveAll(w, chunks[..k + 1], maxMessage, decode).error.Some?
  }

  /** The events of the chunk that throws are lost, and those of the chunks before it were given. */
  lemma {:induction false} ErrorLosesItsChunk(w: Pipe, chunks: seq<seq<Byte>>, maxMessage: nat, decode: Decoder)
    requires ReceiveAll(w, chunks, maxMessage, decode).error.Some?
    ensures var events := ReceiveAll(w, chunks, maxMessage, decode).events;
      exists k: nat :: ThrowsAt(w, chunks, k, events, maxMessage, decode)
    decreases |chunks|
  {
    hide Receive;
    var first := Receive(w, chunks[0], maxMessage, decode);
    if first.error.Some? {
      assert chunks[..1] == [chunks[0]];
      ErrorGivesNothing(w, chunks[0], maxMessage, decode);
      assert ThrowsAt(w, chunks, 0, [], maxMessage, decode);
    } else {
      ErrorLosesItsChunk(first.state, chunks[1..], maxMessage, decode);
      var others := ReceiveAll(first.state, chunks[1..], maxMessage, decode);
      var k: nat :| ThrowsAt(first.state, chunks[1..], k, others.events, maxMessage, decode);
      assert chunks[..k + 1][1..] == chunks[1..][..k] && chunks[..k + 2][1..] == chunks[1..][..k + 1];
      assert ThrowsAt(w, chunks, k + 1, first.events + others.events, maxMessage, decode);
    }
  }

  lemma ErrorGivesNothing(w: Pipe, chunk: seq<Byte>, maxMessage: nat, decode: Decoder)
    ensures var received := Receive(w, chunk, maxMessage, decode); received.error.Some? ==> received.events == []
  {
  }

  /** The same bytes in one piece: the frames of the greedy parse, read until one throws, and the error of either. */
  function ReceiveWhole(r: State, bytes: seq<Byte>, maxMessage: nat, decode: Decoder): (seq<Event>, bool) {
    var parsed := Parser.ParseAll(bytes, maxMessage);
    var read := ReadFrames(r, parsed.frames, maxMessage, decode);
    (read.events, read.error.Some? || parsed.error.Some?)
  }

  /**
   * The events do not depend on how the bytes are cut either: without an error they are those of the whole stream, and
   * an error is thrown for some chunk exactly when the whole stream has one, after events the whole stream has too.
   */
  lemma {:induction false} EventsDoNotDependOnChunks(w: Pipe, chunks: seq<seq<Byte>>, maxMessage: nat, decode: Decoder)
    requires Parser.Valid(w.parser, maxMessage)
    ensures var all, whole := ReceiveAll(w, chunks, maxMessage, decode),
                              ReceiveWhole(w.reader, Flatten(w.parser.chunks) + Flatten(chunks), maxMessage, decode);
      && all.error.Some? == whole.1
      && (all.error.None? ==> all.events == whole.0)
      && all.events <= whole.0
    decreases |chunks|
  {
    hide ReadFrames, Parser.Push, Parser.ParseAll, Parser.Valid;
    var held := Flatten(w.parser.chunks);
    if chunks == [] {
      assert held + Flatten(chunks) == held;
      Parser.HeldIsRest(w.parser, maxMessage);
      NoFramesRead(w.reader, maxMessage, decode);
    } else {
      var more := Flatten(chunks[1..]);
      Parser.PushParses(w.parser, chunks[0], maxMessage);
      Parser.ParseMore(held + chunks[0], more, maxMessage);
      assert held + chunks[0] + more == held + Flatten(chunks);
      var parsed := Parser.ParseAll(held + chunks[0], maxMessage);
      if parsed.error.None? {
        var first := Receive(w, chunks[0], maxMessage, decode);
        ReadFramesConcat(w.reader, parsed.frames, Parser.ParseAll(parsed.rest + more, maxMessage).frames, maxMessage,
          decode);
        if first.error.None? {
          EventsDoNotDependOnChunks(first.state, chunks[1..], maxMessage, decode);
        }
      }
    }
  }

  lemma NoFramesRead(s: State, maxMessage: nat, decode: Decoder)
    ensures ReadFrames(s, [], maxMessage, decode) == Read(s, [], None)
  {
  }

  /**
   * From the client to the events: messages within the limit, cut into any fragments, with control frames between them,
   * every frame with a mask of its own, and the bytes cut by the network in any way, come out as what the client meant.
   */
  lemma ClientIsUnderstood(messages: seq<Message>, sent: seq<Parser.Sent>, chunks: seq<seq<Byte>>, maxMessage: nat,
          decode: Decoder)
    requires AllFine(messages, maxMessage, decode)
    requires forall i :: 0 <= i < |sent| ==> Parser.CanSend(sent[i], maxMessage)
    requires Parser.FramesOf(sent) == Frames(messages)
    requires Flatten(chunks) == Parser.Encode(sent, maxMessage)
    ensures var all := ReceiveAll(PIPE_START, chunks, maxMessage, decode);
      all.error == None && all.events == Meant(messages, maxMessage, decode)
  {
    hide ReceiveAll, ReadFrames, Parser.ParseAll;
    Parser.StartValid(maxMessage);
    Parser.ParseEncoded(sent, maxMessage);
    FragmentsComeOutWhole(messages, maxMessage, decode);
    EventsDoNotDependOnChunks(PIPE_START, chunks, maxMessage, decode);
    assert Flatten(PIPE_START.parser.chunks) + Flatten(chunks) == Flatten(chunks);
  }

  /** Whatever the cut, what is thrown is the error of the frames or the one of the bytes behind them. */
  lemma {:induction false} ThrowsOneOfTheTwo(w: Pipe, chunks: seq<seq<Byte>>, maxMessage: nat, decode: Decoder)
    requires Parser.Valid(w.parser, maxMessage)
    ensures var all, parsed := ReceiveAll(w, chunks, maxMessage, decode),
                               Parser.ParseAll(Flatten(w.parser.chunks) + Flatten(chunks), maxMessage);
      var read := ReadFrames(w.reader, parsed.frames, maxMessage, decode);
      && (all.error == read.error || all.error == parsed.error)
      && (all.error.None? <==> read.error.None? && parsed.error.None?)
    decreases |chunks|
  {
    hide ReadFrames, Parser.Push, Parser.ParseAll, Parser.Valid;
    var held := Flatten(w.parser.chunks);
    if chunks == [] {
      assert held + Flatten(chunks) == held;
      Parser.HeldIsRest(w.parser, maxMessage);
      NoFramesRead(w.reader, maxMessage, decode);
    } else {
      var more := Flatten(chunks[1..]);
      Parser.PushParses(w.parser, chunks[0], maxMessage);
      Parser.ParseMore(held + chunks[0], more, maxMessage);
      assert held + chunks[0] + more == held + Flatten(chunks);
      var parsed := Parser.ParseAll(held + chunks[0], maxMessage);
      if parsed.error.None? {
        var first := Receive(w, chunks[0], maxMessage, decode);
        ReadFramesConcat(w.reader, parsed.frames, Parser.ParseAll(parsed.rest + more, maxMessage).frames, maxMessage,
          decode);
        if first.error.None? {
          ThrowsOneOfTheTwo(first.state, chunks[1..], maxMessage, decode);
        }
      }
    }
  }

  /**
   * The first error of a stream in the order of its bytes: of a frame the reader refuses, or of a frame that cannot be
   * parsed.
   */
  function FirstError(bytes: seq<Byte>, maxMessage: nat, decode: Decoder): Option<nat> {
    var parsed := Parser.ParseAll(bytes, maxMessage);
    var read := ReadFrames(START, parsed.frames, maxMessage, decode);
    if read.error.Some? then read.error else parsed.error
  }

  /**
   * The code a stream is thrown for is the one of its first error, however the stream is cut, exactly when it does not
   * have both a frame the reader refuses and, behind it, bytes that cannot be parsed, with different codes.
   */
  lemma EveryCutThrowsTheFirstError(bytes: seq<Byte>, maxMessage: nat, decode: Decoder)
    ensures var parsed := Parser.ParseAll(bytes, maxMessage);
      var read := ReadFrames(START, parsed.frames, maxMessage, decode);
      (forall chunks: seq<seq<Byte>> :: Flatten(chunks) == bytes ==>
         ReceiveAll(PIPE_START, chunks, maxMessage, decode).error == FirstError(bytes, maxMessage, decode))
      <==> (parsed.error.None? || read.error.None? || read.error == parsed.error)
  {
    hide ReadFrames, Parser.ParseAll, Parser.Push, ReceiveAll;
    var parsed := Parser.ParseAll(bytes, maxMessage);
    var read := ReadFrames(START, parsed.frames, maxMessage, decode);
    Parser.StartValid(maxMessage);
    assert Flatten(PIPE_START.parser.chunks) == [];
    if parsed.error.None? || read.error.None? || read.error == parsed.error {
      forall chunks: seq<seq<Byte>> | Flatten(chunks) == bytes
        ensures ReceiveAll(PIPE_START, chunks, maxMessage, decode).error == FirstError(bytes, maxMessage, decode)
      {
        assert [] + bytes == bytes;
        ThrowsOneOfTheTwo(PIPE_START, chunks, maxMessage, decode);
      }
    } else {
      InOneChunk(bytes, maxMessage, decode);
      Parser.FlattenOne(bytes);
      assert ReceiveAll(PIPE_START, [bytes], maxMessage, decode).error != FirstError(bytes, maxMessage, decode);
    }
  }

  /** In one chunk the bytes that cannot be parsed are found before any frame is read. */
  lemma InOneChunk(bytes: seq<Byte>, maxMessage: nat, decode: Decoder)
    requires Parser.ParseAll(bytes, maxMessage).error.Some?
    ensures ReceiveAll(PIPE_START, [bytes], maxMessage, decode).error == Parser.ParseAll(bytes, maxMessage).error
  {
    hide Parser.ParseAll, Parser.Push;
    Parser.StartValid(maxMessage);
    Parser.PushParses(Parser.START, bytes, maxMessage);
    assert Flatten(Parser.START.chunks) + bytes == bytes;
  }

  /**
   * There are such streams, so the code a client is closed with can depend on how its bytes were cut: a continuation
   * without a message and then a frame above the limit are a protocol error in two chunks and a message that is too big
   * in one.
   */
  lemma CodeDependsOnTheChunks(mask: seq<Byte>, decode: Decoder)
    requires |mask| == 4
    ensures var first, second := ClientFrame(Frame(true, CONTINUATION, []), mask),
      ClientFrame(Frame(true, BINARY, [1, 2]), mask);
      && ReceiveAll(PIPE_START, [first, second], 1, decode).error == Some(PROTOCOL_ERROR)
      && ReceiveAll(PIPE_START, [first + second], 1, decode).error == Some(TOO_BIG)
  {
    hide ReadFrame, ClientFrame;
    var a, b := Frame(true, CONTINUATION, []), Frame(true, BINARY, [1, 2]);
    var first, second := ClientFrame(a, mask), ClientFrame(b, mask);
    FrameRoundTrip(a, mask, [], 1);
    FrameRoundTrip(a, mask, second, 1);
    FrameRoundTrip(b, mask, [], 1);
    EmptyNeedsTwo();
    assert first + [] == first && second + [] == second;
    assert first[|first|..] == [] && (first + second)[|first|..] == second;
    assert Parser.ParseAll(first, 1) == Parser.Parsed([a], [], None);
    assert Parser.ParseAll(first + second, 1).error == Some(TOO_BIG);
    Parser.StartValid(1);
    Parser.PushParses(Parser.START, first, 1);
    Parser.PushParses(Parser.START, first + second, 1);
    assert Flatten(Parser.START.chunks) + first == first
      && Flatten(Parser.START.chunks) + (first + second) == first + second;
    ReadOne(START, a, 1, decode);
    assert Receive(PIPE_START, first, 1, decode).error == Some(PROTOCOL_ERROR);
    assert Receive(PIPE_START, first + second, 1, decode).error == Some(TOO_BIG);
  }

  lemma EmptyNeedsTwo()
    ensures ReadFrame([], 1) == Needs(2)
  {
  }

  // ----- the code -----

  class Reader {
    const maxMessage: nat
    const decode: Decoder
    const parse: Parser.FrameParser
    var fragments: seq<seq<Byte>>
    var fragmentsSize: nat
    var fragmentsOpcode: Option<Byte>

    ghost function Model(): Pipe
      reads this, parse
    {
      Pipe(parse.Model(), State(fragments, fragmentsSize, fragmentsOpcode))
    }

    ghost predicate Good()
      reads this, parse
    {
      parse.maxPayload == maxMessage && Parser.Valid(parse.Model(), maxMessage)
    }

    constructor (maxMessage: nat, decode: Decoder)
      ensures Good() && Model() == PIPE_START && fresh(parse) && this.maxMessage == maxMessage && this.decode == decode
    {
      this.maxMessage := maxMessage;
      this.decode := decode;
      parse := new Parser.FrameParser(maxMessage);
      fragments, fragmentsSize, fragmentsOpcode := [], 0, None;
      new;
      Parser.StartValid(maxMessage);
    }

    /** `readData` */
    method ReadDataFrame(frame: Frame) returns (events: seq<Event>, error: Option<nat>)
      modifies this
      ensures Read(Model().reader, events, error) == ReadData(old(Model().reader), frame, maxMessage, decode)
    {
      var isContinuation := frame.opcode == CONTINUATION;
      if isContinuation == fragmentsOpcode.None? {
        return [], Some(PROTOCOL_ERROR);
      }
      if fragmentsOpcode.None? {
        fragmentsOpcode := Some(frame.opcode);
      }
      fragments := fragments + [frame.payload];
      fragmentsSize := fragmentsSize + |frame.payload|;
      if maxMessage > 0 && fragmentsSize > maxMessage {
        return [], Some(TOO_BIG);
      }
      if !frame.fin {
        return [], None;
      }
      var bytes := Flatten(fragments);
      var opcode := fragmentsOpcode.value;
      fragments, fragmentsSize, fragmentsOpcode := [], 0, None;
      match Finish(opcode, bytes, decode)
      case Gives(event) => return [event], None;
      case Throws(code) => return [], Some(code);
    }

    /** `readFrameEvents` over the frames of a chunk, up to the first that throws. */
    method ReadAll(frames: seq<Frame>) returns (events: seq<Event>, error: Option<nat>)
      modifies this
      ensures Read(Model().reader, events, error) == ReadFrames(old(Model().reader), frames, maxMessage, decode)
    {
      hide ReadControl, ReadData;
      events, error := [], None;
      var i := 0;
      assert frames[..0] == [];
      while i < |frames| && error.None?
        invariant 0 <= i <= |frames|
        invariant error.None? ==>
          Read(Model().reader, events, None) == ReadFrames(old(Model().reader), frames[..i], maxMessage, decode)
        invariant error.Some? ==>
          Read(Model().reader, events, error) == ReadFrames(old(Model().reader), frames, maxMessage, decode)
        decreases |frames| - i, error.None?
      {
        ghost var before := Model().reader;
        assert frames[..i + 1] == frames[..i] + [frames[i]];
        ReadFramesConcat(old(Model().reader), frames[..i], [frames[i]], maxMessage, decode);
        ReadOne(before, frames[i], maxMessage, decode);
        ReadFramesConcat(old(Model().reader), frames[..i + 1], frames[i + 1..], maxMessage, decode);
        assert frames[..i + 1] + frames[i + 1..] == frames;
        var more;
        if IsControl(frames[i].opcode) {
          match ReadControl(frames[i], decode)
          case Gives(event) => more := [event];
          case Throws(code) => more, error := [], Some(code);
        } else {
          more, error := ReadDataFrame(frames[i]);
        }
        events := events + more;
        i := i + 1;
      }
      assert frames[..|frames|] == frames;
    }

    /** The events of a chunk; `error` is the close code of the error it throws instead. */
    method ReadChunk(chunk: seq<Byte>) returns (events: seq<Event>, error: Option<nat>)
      requires Good()
      modifies this, parse
      ensures Received(Model(), events, error) == Receive(old(Model()), chunk, maxMessage, decode)
      ensures error.None? ==> Good()
    {
      hide ReadFrames, Parser.Push;
      var frames;
      frames, error := parse.Read(chunk);
      if error.Some? {
        return [], error;
      }
      events, error := ReadAll(frames);
      if error.Some? {
        events := [];
      }
    }
  }
}
