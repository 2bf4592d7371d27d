/**
 * The frames of the websocket protocol (RFC 6455, section 5.2): the reader of a client's frame at the start of a
 * buffer, the header of a frame, and the encoder of a client.
 */
module WsFrames {
  import opened Bytes

  const CONTINUATION: Byte := 0x0
  const TEXT: Byte := 0x1
  const BINARY: Byte := 0x2
  const CLOSE: Byte := 0x8
  const PING: Byte := 0x9
  const PONG: Byte := 0xa

  const PROTOCOL_ERROR := 1002
  const INVALID_DATA := 1007
  const TOO_BIG := 1009

  const MAX_SAFE_INTEGER := 0x1f_ffff_ffff_ffff

  datatype Frame = Frame(fin: bool, opcode: Byte, payload: seq<Byte>)

  /**
   * A frame with its length, or the size a buffer must have before more can be told, or the close code that is thrown.
   */
  datatype Reading = Whole(frame: Frame, length: nat) | Needs(bytes: nat) | Broken(code: nat)

  predicate IsOpcode(opcode: Byte) {
    opcode in {CONTINUATION, TEXT, BINARY, CLOSE, PING, PONG}
  }

  /** What the reader undoes: every byte is combined with one of the four of the mask, in turn. */
  function Masked(payload: seq<Byte>, mask: seq<Byte>): (masked: seq<Byte>)
    requires |mask| == 4
    ensures |masked| == |payload|
  {
    seq(|payload|, i requires 0 <= i < |payload| => Xor(payload[i], mask[i % 4]))
  }

  /** `unmask` */
  method Unmask(payload: seq<Byte>, mask: seq<Byte>) returns (unmasked: array<Byte>)
    requires |mask| == 4
    ensures unmasked[..] == Masked(payload, mask)
  {
    unmasked := new Byte[|payload|];
    var index := 0;
    while index < |payload|
      invariant 0 <= index <= |payload|
      invariant unmasked[..index] == Masked(payload, mask)[..index]
    {
      unmasked[index] := Xor(payload[index], mask[index % 4]);
      index := index + 1;
    }
  }

  lemma MaskedTwice(payload: seq<Byte>, mask: seq<Byte>)
    requires |mask| == 4
    ensures Masked(Masked(payload, mask), mask) == payload
  {
    forall i | 0 <= i < |payload| ensures Masked(Masked(payload, mask), mask)[i] == payload[i] {
      XorTwice(payload[i], mask[i % 4]);
    }
  }

  /** A bit is turned round exactly where the mask, which is repeated, has one (RFC 6455, section 5.3). */
  lemma MaskTurnsBitsRound(payload: seq<Byte>, mask: seq<Byte>, i: nat, place: nat)
    requires |mask| == 4 && i < |payload| && place < 8
    ensures Bit(Masked(payload, mask)[i], place) <==> Bit(payload[i], place) != Bit(mask[i % 4], place)
  {
    hide Bit;
    XorAt(payload[i], mask[i % 4], place);
  }

  // ----- reading -----

  /** `assertValidHeader`: the close code it throws with, 0 when the first two bytes are fine. */
  function HeaderError(first: Byte, second: Byte): nat {
    var opcode := first % 16;
    if first / 16 % 8 != 0 then PROTOCOL_ERROR
    else if !IsOpcode(opcode) then PROTOCOL_ERROR
    else if second < 0x80 then PROTOCOL_ERROR
    else if opcode >= CLOSE && (first < 0x80 || second % 0x80 > 125) then PROTOCOL_ERROR
    else 0
  }

  function ExtendedLengthBytes(second: Byte): (n: nat)
    ensures n in {0, 2, 8}
  {
    if second % 0x80 == 126 then 2 else if second % 0x80 == 127 then 8 else 0
  }

  /** `readPayloadLength` */
  function ReadPayloadLength(b: seq<Byte>, lengthBytes: nat): nat
    requires 2 + lengthBytes <= |b| && lengthBytes in {0, 2, 8}
  {
    if lengthBytes == 0 then b[1] % 0x80
    else if lengthBytes == 2 then ReadUInt16(b, 2)
    else ReadUInt32(b, 2) * 0x1_0000_0000 + ReadUInt32(b, 6)
  }

  predicate IsTooBig(length: nat, maxPayload: nat) {
    length > MAX_SAFE_INTEGER || (maxPayload > 0 && length > maxPayload)
  }

  /** `readFrame` */
  function ReadFrame(b: seq<Byte>, maxPayload: nat): (r: Reading)
    ensures r.Whole? ==> 6 <= r.length <= |b|
    ensures r.Needs? ==> |b| < r.bytes
  {
    if |b| < 2 then Needs(2)
    else if HeaderError(b[0], b[1]) != 0 then Broken(HeaderError(b[0], b[1]))
    else
      var lengthBytes := ExtendedLengthBytes(b[1]);
      var headerLength := 2 + lengthBytes + 4;
      if |b| < headerLength then Needs(headerLength)
      else
        var payloadLength := ReadPayloadLength(b, lengthBytes);
        if IsTooBig(payloadLength, maxPayload) then Broken(TOO_BIG)
        else
          var length := headerLength + payloadLength;
          if |b| < length then Needs(length)
          else Whole(Frame(b[0] >= 0x80, b[0] % 16, Masked(b[headerLength..length], b[headerLength - 4..headerLength])),
            length)
  }

  /**
   * A frame or an error is told from the bytes it takes, whatever follows, and the bytes needed stay the same until
   * they are there.
   */
  lemma ReadFrameMore(b: seq<Byte>, more: seq<Byte>, maxPayload: nat)
    ensures !ReadFrame(b, maxPayload).Needs? ==> ReadFrame(b + more, maxPayload) == ReadFrame(b, maxPayload)
    ensures ReadFrame(b, maxPayload).Needs? && |b + more| < ReadFrame(b, maxPayload).bytes
      ==> ReadFrame(b + more, maxPayload) == ReadFrame(b, maxPayload)
  {
    hide Masked, ReadUInt16, ReadUInt32, IsTooBig, HeaderError;
    var all := b + more;
    if |b| >= 2 && HeaderError(b[0], b[1]) == 0 {
      var headerLength := 2 + ExtendedLengthBytes(b[1]) + 4;
      if headerLength <= |b| {
        PayloadLengthMore(b, more, headerLength - 6);
        var length := headerLength + ReadPayloadLength(b, headerLength - 6);
        if length <= |b| {
          assert all[headerLength..length] == b[headerLength..length];
          assert all[headerLength - 4..headerLength] == b[headerLength - 4..headerLength];
        }
      }
    }
  }

  lemma PayloadLengthMore(b: seq<Byte>, more: seq<Byte>, lengthBytes: nat)
    requires 2 + lengthBytes <= |b| && lengthBytes in {0, 2, 8}
    ensures ReadPayloadLength(b + more, lengthBytes) == ReadPayloadLength(b, lengthBytes)
  {
  }

  // ----- writing -----

  /** The length bits of the second byte, and the length bytes after it. */
  function LengthBits(length: nat): (bits: nat)
    ensures bits < 0x80
  {
    if length < 126 then length else if length <= 0xffff then 126 else 127
  }

  function LengthBytes(length: nat): seq<Byte>
    requires length < 0x1_0000_0000_0000_0000
  {
    if length < 126 then [] else if length <= 0xffff then UInt16(length) else UInt64(length)
  }

  /** `constructWsHeader`: the mask bit is 0 or 0x80, and a length of more than 64 bits throws, which no buffer has. */
  method ConstructWsHeader(firstByte: Byte, maskBit: Byte, length: nat) returns (header: array<Byte>)
    requires maskBit in {0, 0x80} && length < 0x1_0000_0000_0000_0000
    ensures header[..] == [firstByte, maskBit + LengthBits(length)] + LengthBytes(length)
  {
    hide UInt16, UInt64;
    var lengthBytes := if length < 126 then 0 else if length <= 0xffff then 2 else 8;
    header := new Byte[2 + lengthBytes];
    header[0] := firstByte;
    header[1] := maskBit + if lengthBytes == 0 then length else if lengthBytes == 2 then 126 else 127;
    var bytes := if lengthBytes == 0 then [] else if lengthBytes == 2 then UInt16(length) else UInt64(length);
    for i := 0 to lengthBytes
      invariant header[0] == firstByte && header[1] == maskBit + LengthBits(length)
      invariant header[2..2 + i] == bytes[..i]
    {
      header[2 + i] := bytes[i];
    }
    assert header[..] == [header[0], header[1]] + header[2..2 + lengthBytes];
  }

  function FirstByte(fin: bool, opcode: Byte): Byte
    requires opcode < 16
  {
    (if fin then 0x80 else 0) + opcode
  }

  /** `clientFrame`: header, mask and masked payload. */
  function ClientFrame(frame: Frame, mask: seq<Byte>): seq<Byte>
    requires |mask| == 4 && frame.opcode < 16 && |frame.payload| < 0x1_0000_0000_0000_0000
  {
    [FirstByte(frame.fin, frame.opcode), 0x80 + LengthBits(|frame.payload|)] + LengthBytes(|frame.payload|) + mask
      + Masked(frame.payload, mask)
  }

  // ----- the round trip -----

  /** What RFC 6455 lets a client send: a known opcode, and control frames whole and short. */
  predicate IsValidFrame(frame: Frame) {
    && frame.opcode in {0, 1, 2, 8, 9, 10}
    && (frame.opcode in {8, 9, 10} ==> frame.fin && |frame.payload| <= 125)
    && |frame.payload| < 0x1_0000_0000_0000_0000
  }

  lemma ReadLength(b: seq<Byte>, length: nat)
    requires length < 0x1_0000_0000_0000_0000 && 2 <= |b| && LengthBytes(length) <= b[2..]
    requires b[1] == 0x80 + LengthBits(length)
    ensures ExtendedLengthBytes(b[1]) == |LengthBytes(length)|
    ensures 2 + |LengthBytes(length)| <= |b| && ReadPayloadLength(b, |LengthBytes(length)|) == length
  {
    hide UInt16, UInt64, ReadUInt16, ReadUInt32;
    var n := |LengthBytes(length)|;
    assert b[2..2 + n] == b[2..][..n] == LengthBytes(length);
    if n == 2 {
      UInt16Back(b, 2, length);
    } else if n == 8 {
      UInt64Back(b, 2, length);
    }
  }

  /**
   * Reading a client's frame at the start of a buffer gives the frame back and takes exactly its bytes, in all three
   * forms of the length; a frame above the limit is refused instead, and nothing else is.
   */
  lemma FrameRoundTrip(frame: Frame, mask: seq<Byte>, more: seq<Byte>, maxPayload: nat)
    requires IsValidFrame(frame) && |mask| == 4
    ensures ReadFrame(ClientFrame(frame, mask) + more, maxPayload) ==
      if |frame.payload| > 9007199254740991 || 0 < maxPayload < |frame.payload| then Broken(1009)
      else Whole(frame, |ClientFrame(frame, mask)|)
  {
    hide Masked, LengthBytes, LengthBits, HeaderError, FirstByte, ClientFrame, ReadPayloadLength, ExtendedLengthBytes;
    var n := |frame.payload|;
    var h := 2 + |LengthBytes(n)| + 4;
    var b := ClientFrame(frame, mask) + more;
    ClientFrameParts(frame, mask, more);
    ClientHeaderIsFine(frame);
    ReadLength(b, n);
    MaskedTwice(frame.payload, mask);
  }

  lemma ClientHeaderIsFine(frame: Frame)
    requires IsValidFrame(frame)
    ensures var first := FirstByte(frame.fin, frame.opcode);
      && HeaderError(first, 0x80 + LengthBits(|frame.payload|)) == 0
      && (first >= 0x80) == frame.fin && first % 16 == frame.opcode
  {
  }

  lemma ClientFrameParts(frame: Frame, mask: seq<Byte>, more: seq<Byte>)
    requires IsValidFrame(frame) && |mask| == 4
    ensures var b, n := ClientFrame(frame, mask) + more, |frame.payload|;
      var h := 2 + |LengthBytes(n)| + 4;
      && |ClientFrame(frame, mask)| == h + n
      && b[0] == FirstByte(frame.fin, frame.opcode) && b[1] == 0x80 + LengthBits(n)
      && LengthBytes(n) <= b[2..]
      && b[h - 4..h] == mask && b[h..h + n] == Masked(frame.payload, mask)
  {
    hide Masked, LengthBytes;
    var head := [FirstByte(frame.fin, frame.opcode), 0x80 + LengthBits(|frame.payload|)];
    var extended, masked := LengthBytes(|frame.payload|), Masked(frame.payload, mask);
    var b := ClientFrame(frame, mask) + more;
    assert b[2..] == extended + (mask + masked + more);
    assert b[2 + |extended|..] == mask + (masked + more);
  }

  /** What a client has sent of a frame so far neither is a frame nor an error, unless the frame is too big. */
  lemma FrameStillComing(frame: Frame, mask: seq<Byte>, k: nat, maxPayload: nat)
    requires IsValidFrame(frame) && |mask| == 4 && k < |ClientFrame(frame, mask)|
    ensures |frame.payload| > 9007199254740991 || 0 < maxPayload < |frame.payload|
      || ReadFrame(ClientFrame(frame, mask)[..k], maxPayload).Needs?
  {
    hide ReadFrame, ClientFrame;
    var all := ClientFrame(frame, mask);
    FrameRoundTrip(frame, mask, [], maxPayload);
    ReadFrameMore(all[..k], all[k..], maxPayload);
    assert all[..k] + all[k..] == all + [];
  }

  // ----- what is refused -----

  /** The first two bytes of a frame that a client may send, with its flag, its opcode and the bits of its length. */
  predicate IsClientHeader(first: Byte, second: Byte, fin: bool, opcode: nat, bits: nat) {
    && first == (if fin then 128 else 0) + opcode && second == 128 + bits && bits < 128
    && opcode in {0, 1, 2, 8, 9, 10}
    && (opcode in {8, 9, 10} ==> fin && bits <= 125)
  }

  /** Two bytes are refused, as a protocol error, exactly when no frame that a client may send begins with them. */
  lemma HeaderIsRefusedExactly(b: seq<Byte>, maxPayload: nat)
    requires |b| == 2
    ensures ReadFrame(b, maxPayload) == Broken(1002)
      <==> !exists fin, opcode: nat, bits: nat :: IsClientHeader(b[0], b[1], fin, opcode, bits)
    ensures ReadFrame(b, maxPayload).Broken? ==> ReadFrame(b, maxPayload).code == 1002
  {
    var first, second := b[0], b[1];
    var fin, opcode, bits := first >= 128, first % 16, second % 128;
    if HeaderError(first, second) == 0 {
      assert first / 16 % 8 == 0 && IsClientHeader(first, second, fin, opcode, bits);
    } else {
      forall fin, opcode: nat, bits: nat ensures !IsClientHeader(first, second, fin, opcode, bits) {
      }
    }
  }
}
