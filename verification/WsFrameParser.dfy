/** The parser of a websocket client's bytes, which a socket splits as it likes. */
module WsFrameParser {
  import opened Bytes
  import opened Collections
  import opened WsFrames

  /** One greedy parse of all bytes: the frames, what is left of them, and the code of the error that stopped it. */
  datatype Parsed = Parsed(frames: seq<Frame>, rest: seq<Byte>, error: Option<nat>)

  function ParseAll(bytes: seq<Byte>, maxPayload: nat): Parsed
    decreases |bytes|
  {
    match ReadFrame(bytes, maxPayload)
    case Needs(_) => Parsed([], bytes, None)
    case Broken(code) => Parsed([], bytes, Some(code))
    case Whole(frame, length) =>
      var more := ParseAll(bytes[length..], maxPayload);
      Parsed([frame] + more.frames, more.rest, more.error)
  }

  /** The parser between two chunks. */
  datatype State = State(chunks: seq<seq<Byte>>, size: nat, needed: nat)

  /** What a push does: it returns frames, or throws the close code, after which the connection is not read any more. */
  datatype Pushed = Pushed(state: State, frames: seq<Frame>, error: Option<nat>)

  const START := State([], 0, 0)

  function Push(s: State, chunk: seq<Byte>, maxPayload: nat): Pushed {
    var held := Flatten(s.chunks) + chunk;
    var kept := State(s.chunks + [chunk], s.size + |chunk|, s.needed);
    if kept.size < s.needed then Pushed(kept, [], None)
    else
      var parsed := ParseAll(held, maxPayload);
      match parsed.error
      case Some(code) => Pushed(kept, [], Some(code))
      case None =>
        Pushed(State(if parsed.rest == [] then []
          else [parsed.rest], |parsed.rest|, NeededFor(parsed.rest, maxPayload)), parsed.frames, None)
  }

  function NeededFor(rest: seq<Byte>, maxPayload: nat): nat {
    match ReadFrame(rest, maxPayload)
    case Needs(bytes) => bytes
    case _ => 0
  }

  /** What was pushed of the chunks, up to the first one that threw, and the frames that came out. */
  function Feed(s: State, chunks: seq<seq<Byte>>, maxPayload: nat): Pushed
    decreases |chunks|
  {
    if chunks == [] then Pushed(s, [], None)
    else
      var first := Push(s, chunks[0], maxPayload);
      if first.error.Some? then first
      else
        var others := Feed(first.state, chunks[1..], maxPayload);
        Pushed(others.state, first.frames + others.frames, others.error)
  }

  // ----- the greedy parse -----

  lemma {:induction false} RestNeedsMore(bytes: seq<Byte>, maxPayload: nat)
    requires ParseAll(bytes, maxPayload).error.None?
    ensures ReadFrame(ParseAll(bytes, maxPayload).rest, maxPayload).Needs?
    decreases |bytes|
  {
    hide ReadFrame;
    match ReadFrame(bytes, maxPayload)
    case Whole(_, length) => RestNeedsMore(bytes[length..], maxPayload);
    case _ =>
  }

  /** More bytes do not change what was parsed before them. */
  lemma {:induction false} ParseMore(bytes: seq<Byte>, more: seq<Byte>, maxPayload: nat)
    ensures var parsed, all := ParseAll(bytes, maxPayload), ParseAll(bytes + more, maxPayload);
      match parsed.error
      case Some(code) => all.frames == parsed.frames && all.error == Some(code)
      case None =>
        var others := ParseAll(parsed.rest + more, maxPayload);
        all == Parsed(parsed.frames + others.frames, others.rest, others.error)
    decreases |bytes|
  {
    hide ReadFrame;
    ReadFrameMore(bytes, more, maxPayload);
    match ReadFrame(bytes, maxPayload)
    case Needs(_) =>
      var others := ParseAll(bytes + more, maxPayload);
      assert [] + others.frames == others.frames;
    case Broken(_) =>
    case Whole(frame, length) =>
      assert (bytes + more)[length..] == bytes[length..] + more;
      ParseMore(bytes[length..], more, maxPayload);
      var tail := ParseAll(bytes[length..], maxPayload);
      if tail.error.None? {
        var others := ParseAll(tail.rest + more, maxPayload);
        assert [frame] + (tail.frames + others.frames) == [frame] + tail.frames + others.frames;
      }
  }

  // ----- the parser -----

  /** The parser holds an unparsed rest, and `needed` is what that rest, or an earlier part of it, needs. */
  ghost predicate Valid(s: State, maxPayload: nat) {
    var held := Flatten(s.chunks);
    && s.size == |held|
    && (s.needed == 0 ==> held == [])
    && (s.needed > 0 ==> ReadFrame(held, maxPayload) == Needs(s.needed))
  }

  lemma StartValid(maxPayload: nat)
    ensures Valid(START, maxPayload)
  {
  }

  /** The check of `needed` never withholds a frame or an error: a push does what a parse of all that is held does. */
  lemma PushParses(s: State, chunk: seq<Byte>, maxPayload: nat)
    requires Valid(s, maxPayload)
    ensures var pushed, parsed := Push(s, chunk, maxPayload), ParseAll(Flatten(s.chunks) + chunk, maxPayload);
      && pushed.error == parsed.error
      && (pushed.error.None? ==>
            && pushed.frames == parsed.frames
            && Flatten(pushed.state.chunks) == parsed.rest
            && Valid(pushed.state, maxPayload))
      && (pushed.error.Some? ==> pushed.frames == [])
  {
    hide ReadFrame;
    var held := Flatten(s.chunks) + chunk;
    FlattenPush(s.chunks, chunk);
    if s.size + |chunk| < s.needed {
      ReadFrameMore(Flatten(s.chunks), chunk, maxPayload);
    } else {
      var parsed := ParseAll(held, maxPayload);
      if parsed.error.None? {
        RestNeedsMore(held, maxPayload);
        FlattenOne(parsed.rest);
      }
    }
  }

  lemma FlattenOne<T>(part: seq<T>)
    ensures Flatten(if part == [] then [] else [part]) == part
  {
    if part != [] {
      assert Flatten([part]) == part + Flatten<T>([]);
    }
  }

  lemma {:induction false} FeedParses(s: State, chunks: seq<seq<Byte>>, maxPayload: nat)
    requires Valid(s, maxPayload)
    ensures var fed, parsed := Feed(s, chunks, maxPayload), ParseAll(Flatten(s.chunks) + Flatten(chunks), maxPayload);
      && fed.error == parsed.error
      && (fed.error.None? ==>
            fed.frames == parsed.frames && Flatten(fed.state.chunks) == parsed.rest && Valid(fed.state, maxPayload))
      && (fed.error.Some? ==> fed.frames <= parsed.frames)
    decreases |chunks|
  {
    hide ReadFrame, Push, ParseAll;
    var held := Flatten(s.chunks);
    if chunks == [] {
      assert held + Flatten(chunks) == held;
      HeldIsRest(s, maxPayload);
    } else {
      var first := Push(s, chunks[0], maxPayload);
      PushParses(s, chunks[0], maxPayload);
      ParseMore(held + chunks[0], Flatten(chunks[1..]), maxPayload);
      assert held + chunks[0] + Flatten(chunks[1..]) == held + Flatten(chunks);
      if first.error.None? {
        FeedParses(first.state, chunks[1..], maxPayload);
      }
    }
  }

  lemma HeldIsRest(s: State, maxPayload: nat)
    requires Valid(s, maxPayload)
    ensures ParseAll(Flatten(s.chunks), maxPayload) == Parsed([], Flatten(s.chunks), None)
  {
  }

  /**
   * The frames do not depend on how the bytes are cut: all the pushes together give the frames of one greedy parse of
   * the whole stream and keep exactly its unparsed rest, and some push throws exactly when the whole parse meets an
   * error, with its code, after frames the whole parse has too.
   */
  lemma ChunkingDoesNotMatter(chunks: seq<seq<Byte>>, maxPayload: nat)
    ensures var fed, parsed := Feed(START, chunks, maxPayload), ParseAll(Flatten(chunks), maxPayload);
      && fed.error == parsed.error
      && (fed.error.None? ==>
            && fed.frames == parsed.frames
            && Flatten(fed.state.chunks) == parsed.rest
            && fed.state.size == |parsed.rest|)
      && (fed.error.Some? ==> fed.frames <= parsed.frames)
  {
    StartValid(maxPayload);
    FeedParses(START, chunks, maxPayload);
    assert Flatten(START.chunks) + Flatten(chunks) == Flatten(chunks);
  }

  // ----- what a client sends comes out -----

  /** A frame and the mask the client picked for it. */
  datatype Sent = Sent(frame: Frame, mask: seq<Byte>)

  predicate CanSend(sent: Sent, maxPayload: nat) {
    IsValidFrame(sent.frame) && |sent.mask| == 4 && !IsTooBig(|sent.frame.payload|, maxPayload)
  }

  function Encode(sent: seq<Sent>, maxPayload: nat): seq<Byte>
    requires forall i :: 0 <= i < |sent| ==> CanSend(sent[i], maxPayload)
  {
    if sent == [] then []
    else
      assert CanSend(sent[0], maxPayload);
      ClientFrame(sent[0].frame, sent[0].mask) + Encode(sent[1..], maxPayload)
  }

  function FramesOf(sent: seq<Sent>): seq<Frame> {
    seq(|sent|, i requires 0 <= i < |sent| => sent[i].frame)
  }

  lemma {:induction false} ParseEncoded(sent: seq<Sent>, maxPayload: nat)
    requires forall i :: 0 <= i < |sent| ==> CanSend(sent[i], maxPayload)
    ensures ParseAll(Encode(sent, maxPayload), maxPayload) == Parsed(FramesOf(sent), [], None)
  {
    hide ParseAll, ReadFrame, ClientFrame, CanSend;
    if sent == [] {
      NothingParses(maxPayload);
    } else {
      assert CanSend(sent[0], maxPayload);
      ParseEncoded(sent[1..], maxPayload);
      ParseOneMore(sent[0], Encode(sent[1..], maxPayload), maxPayload);
      assert FramesOf(sent) == [sent[0].frame] + FramesOf(sent[1..]);
    }
  }

  lemma NothingParses(maxPayload: nat)
    ensures ParseAll([], maxPayload) == Parsed([], [], None)
  {
    assert ReadFrame([], maxPayload) == Needs(2);
  }

  /** A frame in front of other bytes is parsed first, and the others as they are on their own. */
  lemma ParseOneMore(sent: Sent, more: seq<Byte>, maxPayload: nat)
    requires CanSend(sent, maxPayload)
    ensures var parsed := ParseAll(more, maxPayload);
      ParseAll(ClientFrame(sent.frame, sent.mask) + more, maxPayload)
      == Parsed([sent.frame] + parsed.frames, parsed.rest, parsed.error)
  {
    hide ReadFrame, ClientFrame;
    var first := ClientFrame(sent.frame, sent.mask);
    FrameRoundTrip(sent.frame, sent.mask, more, maxPayload);
    assert (first + more)[|first|..] == more;
  }

  /**
   * Whatever frames a client sends, with whatever masks, and however the network cuts them, exactly these frames come
   * out.
   */
  lemma SentFramesComeOut(sent: seq<Sent>, chunks: seq<seq<Byte>>, maxPayload: nat)
    requires forall i :: 0 <= i < |sent| ==> CanSend(sent[i], maxPayload)
    requires Flatten(chunks) == Encode(sent, maxPayload)
    ensures var fed := Feed(START, chunks, maxPayload);
      fed.error == None && fed.frames == FramesOf(sent) && fed.state.size == 0
  {
    ParseEncoded(sent, maxPayload);
    ChunkingDoesNotMatter(chunks, maxPayload);
  }

  // ----- the code -----

  /** The loop of a push over the frames of a buffer: the frames, and what stopped it at `offset`. */
  method ReadFrames(buffer: seq<Byte>, maxPayload: nat) returns (frames: seq<Frame>, offset: nat, stop: Reading)
    ensures offset <= |buffer| && stop == ReadFrame(buffer[offset..], maxPayload) && !stop.Whole?
    ensures ParseAll(buffer, maxPayload)
      == Parsed(frames, buffer[offset..], if stop.Broken? then Some(stop.code) else None)
  {
    hide ReadFrame;
    frames, offset := [], 0;
    stop := ReadFrame(buffer, maxPayload);
    assert buffer[0..] == buffer;
    while stop.Whole?
      invariant 0 <= offset <= |buffer|
      invariant stop == ReadFrame(buffer[offset..], maxPayload)
      invariant var others := ParseAll(buffer[offset..], maxPayload);
        ParseAll(buffer, maxPayload) == Parsed(frames + others.frames, others.rest, others.error)
      decreases |buffer| - offset
    {
      assert buffer[offset..][stop.length..] == buffer[offset + stop.length..];
      frames := frames + [stop.frame];
      offset := offset + stop.length;
      stop := ReadFrame(buffer[offset..], maxPayload);
    }
  }

  class FrameParser {
    const maxPayload: nat
    var chunks: seq<seq<Byte>>
    var size: nat
    var needed: nat

    ghost function Model(): State
      reads this
    {
      State(chunks, size, needed)
    }

    constructor (maxPayload: nat)
      ensures Model() == START && this.maxPayload == maxPayload
    {
      this.maxPayload := maxPayload;
      chunks, size, needed := [], 0, 0;
    }

    /** `error` is the close code of the error it throws. */
    method Read(chunk: seq<Byte>) returns (frames: seq<Frame>, error: Option<nat>)
      requires Valid(Model(), maxPayload)
      modifies this
      ensures Pushed(Model(), frames, error) == Push(old(Model()), chunk, maxPayload)
      ensures error.None? ==> Valid(Model(), maxPayload)
    {
      hide ReadFrame, ParseAll;
      PushParses(Model(), chunk, maxPayload);
      FlattenPush(chunks, chunk);
      chunks := chunks + [chunk];
      size := size + |chunk|;
      if size < needed {
        return [], None;
      }
      var buffer := Flatten(chunks);
      var offset, stop;
      frames, offset, stop := ReadFrames(buffer, maxPayload);
      if stop.Broken? {
        return [], Some(stop.code);
      }
      needed := stop.bytes;
      var rest := buffer[offset..];
      chunks := if |rest| > 0 then [rest] else [];
      size := |rest|;
      error := None;
    }
  }
}
