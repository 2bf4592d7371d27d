/**
 * Certificate requests in DER, and a reader for them by the rules of ITU-T X.690: definite lengths in the fewest octets
 * (sections 8.1.3 and 10.1), object identifiers in base 128 (section 8.19).
 */
module Der {
  import opened Bytes
  import opened Collections

  const SEQUENCE: Byte := 0x30
  const SET: Byte := 0x31
  const INTEGER: Byte := 0x02
  const OID: Byte := 0x06
  const UTF8_STRING: Byte := 0x0c
  const OCTET_STRING: Byte := 0x04
  const BIT_STRING: Byte := 0x03
  const ATTRIBUTES: Byte := 0xa0
  const DNS_NAME: Byte := 0x82
  const MAX_COMMON_NAME := 64

  /** The longest content whose length is written as it is. */
  const MAX_CONTENT := 0xffff

  // ----- the encoder -----

  /** A byte of a buffer keeps the low 8 bits of what is put into it. */
  function ToByte(value: nat): Byte {
    value % 0x100
  }

  function EncodeLength(length: nat): seq<Byte> {
    if length < 0x80 then [length]
    else
      var bytes: seq<Byte> := if length > 0xff then [ToByte(length / 0x100), ToByte(length)] else [ToByte(length)];
      [ToByte(0x80 + |bytes|)] + bytes
  }

  function Encode(tag: Byte, parts: seq<seq<Byte>>): seq<Byte> {
    var content := Flatten(parts);
    [tag] + EncodeLength(|content|) + content
  }

  /** The digits of a number to the base 128, the most significant first; bit 8 of a digit says that more follow. */
  function Base128(value: nat, last: bool): seq<Byte> {
    var byte: Byte := value % 0x80 + (if last then 0 else 0x80);
    if value < 0x80 then [byte] else Base128(value / 0x80, false) + [byte]
  }

  function ArcsOf(arcs: seq<nat>): seq<Byte> {
    if arcs == [] then [] else Base128(arcs[0], true) + ArcsOf(arcs[1..])
  }

  /** The content of an object identifier: the first two arcs are one byte. */
  function OidContent(arcs: seq<nat>): seq<Byte>
    requires |arcs| >= 2
  {
    [ToByte(arcs[0] * 40 + arcs[1])] + ArcsOf(arcs[2..])
  }

  function Oid(arcs: seq<nat>): seq<Byte>
    requires |arcs| >= 2
  {
    Encode(OID, [OidContent(arcs)])
  }

  // ----- the reader -----

  function BigEndian(bytes: seq<Byte>): nat {
    if bytes == [] then 0 else BigEndian(bytes[..|bytes| - 1]) * 0x100 + bytes[|bytes| - 1]
  }

  /**
   * The length at the start of the bytes, and how many octets it takes. A length in more octets than it needs is
   * refused.
   */
  function ReadLength(bytes: seq<Byte>): (read: Option<(nat, nat)>)
    ensures read.Some? ==> 1 <= read.value.1 <= |bytes|
  {
    if bytes == [] then None
    else if bytes[0] < 0x80 then Some((bytes[0], 1))
    else
      var octets := bytes[0] - 0x80;
      if octets == 0 || octets == 0x7f || |bytes| < 1 + octets || bytes[1] == 0 then None
      else
        var length := BigEndian(bytes[1..1 + octets]);
        if length < 0x80 then None else Some((length, 1 + octets))
  }

  datatype Element = Element(tag: Byte, content: seq<Byte>)

  /** The first element, and what comes after it. */
  function ReadElement(bytes: seq<Byte>): (read: Option<(Element, seq<Byte>)>)
    ensures read.Some? ==> |read.value.0.content| < |bytes| && |read.value.1| < |bytes|
  {
    if bytes == [] then None
    else
      match ReadLength(bytes[1..])
      case None => None
      case Some((length, octets)) =>
        var from := 1 + octets;
        if |bytes| < from + length then None
        else Some((Element(bytes[0], bytes[from..from + length]), bytes[from + length..]))
  }

  /** One arc: the bytes up to the first without the high bit. */
  function ReadArc(bytes: seq<Byte>, value: nat): (read: Option<(nat, seq<Byte>)>)
    ensures read.Some? ==> |read.value.1| < |bytes|
    decreases |bytes|
  {
    if bytes == [] then None
    else
      var now := value * 0x80 + bytes[0] % 0x80;
      if bytes[0] < 0x80 then Some((now, bytes[1..])) else ReadArc(bytes[1..], now)
  }

  function ReadArcs(bytes: seq<Byte>): Option<seq<nat>>
    decreases |bytes|
  {
    if bytes == [] then Some([])
    else
      match ReadArc(bytes, 0)
      case None => None
      case Some((arc, rest)) =>
        match ReadArcs(rest)
        case None => None
        case Some(arcs) => Some([arc] + arcs)
  }

  /** The first arc of the encoding stands for two, the first of which is 0, 1 or 2. */
  function ReadOid(content: seq<Byte>): Option<seq<nat>> {
    match ReadArcs(content)
    case None => None
    case Some(arcs) =>
      if arcs == [] then None
      else
        var top := if arcs[0] < 40 then 0 else if arcs[0] < 80 then 1 else 2;
        Some([top, arcs[0] - top * 40] + arcs[1..])
  }

  // ----- lengths and elements -----

  lemma BigEndianOne(a: Byte)
    ensures BigEndian([a]) == a
  {
    assert [a][..0] == [];
  }

  lemma BigEndianTwo(a: Byte, b: Byte)
    ensures BigEndian([a, b]) == a * 0x100 + b
  {
    assert [a, b][..1] == [a];
    BigEndianOne(a);
  }

  /** A length of at most 16 bits is read as it was written; a longer one never is. */
  lemma LengthRoundTrip(length: nat, rest: seq<Byte>)
    ensures ReadLength(EncodeLength(length) + rest) == Some((length, |EncodeLength(length)|)) <==> length <= MAX_CONTENT
  {
    var encoded := EncodeLength(length);
    var bytes := encoded + rest;
    if length >= 0x80 {
      var octets := |encoded| - 1;
      assert bytes[1..1 + octets] == encoded[1..];
      if octets == 1 {
        assert encoded[1..] == [encoded[1]];
        BigEndianOne(encoded[1]);
      } else {
        assert encoded[1..] == [encoded[1], encoded[2]];
        BigEndianTwo(encoded[1], encoded[2]);
      }
    }
  }

  /** What octets can say is bounded by how many they are, from above and, without a leading zero, from below. */
  lemma {:induction false} BigEndianRange(bytes: seq<Byte>)
    requires bytes != [] && bytes[0] != 0
    ensures |bytes| == 1 ==> BigEndian(bytes) == bytes[0]
    ensures |bytes| == 2 ==> BigEndian(bytes) == (bytes[0] as int) * 0x100 + bytes[1]
    ensures |bytes| >= 3 ==> BigEndian(bytes) >= 0x1_0000
  {
    if |bytes| == 1 {
      assert bytes == [bytes[0]];
      BigEndianOne(bytes[0]);
    } else if |bytes| == 2 {
      assert bytes == [bytes[0], bytes[1]];
      BigEndianTwo(bytes[0], bytes[1]);
    } else {
      BigEndianRange(bytes[..|bytes| - 1]);
    }
  }

  /** The field that is written is the only one that is read as the length, so there is no shorter one. */
  lemma LengthIsUnique(length: nat, field: seq<Byte>, rest: seq<Byte>)
    requires length <= MAX_CONTENT && ReadLength(field + rest) == Some((length, |field|))
    ensures field == EncodeLength(length)
  {
    hide BigEndian;
    var bytes := field + rest;
    if bytes[0] >= 0x80 {
      assert bytes[1..|field|] == field[1..];
      BigEndianRange(field[1..]);
    }
  }

  lemma LengthOfLength(length: nat)
    ensures 1 <= |EncodeLength(length)| <= 3
  {
  }

  /**
   * Whatever comes after it, an element is read back with its tag and content exactly when the content has at most
   * 65535 bytes: two octets are all that is written of a longer length.
   */
  lemma ElementRoundTrip(tag: Byte, parts: seq<seq<Byte>>, rest: seq<Byte>)
    ensures ReadElement(Encode(tag, parts) + rest) == Some((Element(tag, Flatten(parts)), rest))
      <==> |Flatten(parts)| <= MAX_CONTENT
  {
    hide EncodeLength, ReadLength, Flatten;
    var content := Flatten(parts);
    var length := EncodeLength(|content|);
    var bytes := Encode(tag, parts) + rest;
    LengthRoundTrip(|content|, content + rest);
    LengthOfLength(|content|);
    assert bytes[1..] == length + (content + rest);
    if |content| <= MAX_CONTENT {
      assert bytes[1 + |length|..1 + |length| + |content|] == content;
      assert bytes[1 + |length| + |content|..] == rest;
    } else if ReadElement(bytes).Some? {
      SplitsOnce(bytes, |content|, |length|, |rest|);
    }
  }

  /** The octets of the length are the ones between the tag and the content, however they were read. */
  lemma SplitsOnce(bytes: seq<Byte>, size: nat, octets: nat, left: nat)
    requires ReadElement(bytes).Some? && |bytes| == 1 + octets + size + left
    requires ReadLength(bytes[1..]) != Some((size, octets))
    ensures !(|ReadElement(bytes).value.0.content| == size && |ReadElement(bytes).value.1| == left)
  {
  }

  /** Of an element that is too long, a reader takes less than there is. */
  lemma TooLongLeavesSome(tag: Byte, parts: seq<seq<Byte>>)
    requires |Flatten(parts)| > MAX_CONTENT && ReadElement(Encode(tag, parts)).Some?
    ensures ReadElement(Encode(tag, parts)).value.1 != []
  {
    hide Flatten, BigEndian;
    var content := Flatten(parts);
    var bytes := Encode(tag, parts);
    assert bytes[1..] == EncodeLength(|content|) + content;
    assert bytes[1..][1..3] == [bytes[2], bytes[3]];
    BigEndianTwo(bytes[2], bytes[3]);
  }

  // ----- object identifiers -----

  lemma HighByte(byte: Byte, rest: seq<Byte>, value: nat)
    requires byte >= 0x80
    ensures ReadArc([byte] + rest, value) == ReadArc(rest, value * 0x80 + byte % 0x80)
  {
    assert ([byte] + rest)[1..] == rest;
  }

  lemma LowByte(byte: Byte, rest: seq<Byte>, value: nat)
    requires byte < 0x80
    ensures ReadArc([byte] + rest, value) == Some((value * 0x80 + byte, rest))
  {
    assert ([byte] + rest)[1..] == rest;
  }

  /** The bytes with the high bit set are read into the value, and the reading goes on behind them. */
  lemma {:induction false} MoreOfArc(value: nat, rest: seq<Byte>)
    ensures ReadArc(Base128(value, false) + rest, 0) == ReadArc(rest, value)
  {
    hide ReadArc;
    var byte: Byte := value % 0x80 + 0x80;
    if value < 0x80 {
      HighByte(byte, rest, 0);
    } else {
      MoreOfArc(value / 0x80, [byte] + rest);
      assert Base128(value, false) + rest == Base128(value / 0x80, false) + ([byte] + rest);
      HighByte(byte, rest, value / 0x80);
    }
  }

  /** An arc of any size is read back, whatever comes after it. */
  lemma ArcRoundTrip(value: nat, rest: seq<Byte>)
    ensures ReadArc(Base128(value, true) + rest, 0) == Some((value, rest))
  {
    hide ReadArc;
    var byte: Byte := value % 0x80;
    if value < 0x80 {
      LowByte(byte, rest, 0);
    } else {
      MoreOfArc(value / 0x80, [byte] + rest);
      assert Base128(value, true) + rest == Base128(value / 0x80, false) + ([byte] + rest);
      LowByte(byte, rest, value / 0x80);
    }
  }

  lemma {:induction false} ArcsRoundTrip(arcs: seq<nat>)
    ensures ReadArcs(ArcsOf(arcs)) == Some(arcs)
  {
    if arcs != [] {
      ArcRoundTrip(arcs[0], ArcsOf(arcs[1..]));
      ArcsRoundTrip(arcs[1..]);
      assert [arcs[0]] + arcs[1..] == arcs;
    }
  }

  /** An arc does not start with an empty digit: it is written in the fewest bytes (section 8.19.2). */
  lemma {:induction false} ArcIsShortest(value: nat, last: bool)
    ensures Base128(value, last) != []
    ensures |Base128(value, last)| > 1 ==> Base128(value, last)[0] % 0x80 != 0
    ensures forall i :: 0 <= i < |Base128(value, last)| - 1 ==> Base128(value, last)[i] >= 0x80
  {
    if value >= 0x80 {
      ArcIsShortest(value / 0x80, false);
      AllHigh(value / 0x80);
      if value / 0x80 < 0x80 {
        assert Base128(value / 0x80, false) == [value / 0x80 + 0x80];
      }
    }
  }

  lemma {:induction false} AllHigh(value: nat)
    ensures forall i :: 0 <= i < |Base128(value, false)| ==> Base128(value, false)[i] >= 0x80
  {
    if value >= 0x80 {
      AllHigh(value / 0x80);
    }
  }

  /** How many bytes end an arc. */
  function Ends(bytes: seq<Byte>): nat {
    if bytes == [] then 0 else (if bytes[0] < 0x80 then 1 else 0) + Ends(bytes[1..])
  }

  lemma {:induction false} ArcHasOneEnd(bytes: seq<Byte>, value: nat)
    requires ReadArc(bytes, value).Some?
    ensures Ends(bytes) == 1 + Ends(ReadArc(bytes, value).value.1)
    decreases |bytes|
  {
    if bytes[0] >= 0x80 {
      ArcHasOneEnd(bytes[1..], value * 0x80 + bytes[0] % 0x80);
    }
  }

  lemma {:induction false} AsManyAsEnds(bytes: seq<Byte>)
    requires ReadArcs(bytes).Some?
    ensures |ReadArcs(bytes).value| == Ends(bytes)
    decreases |bytes|
  {
    if bytes != [] {
      ArcHasOneEnd(bytes, 0);
      AsManyAsEnds(ReadArc(bytes, 0).value.1);
    }
  }

  /** The arcs of an object identifier by section 8.19.4: the first is 0, 1 or 2, the second below 40 under 0 and 1. */
  predicate AreArcs(arcs: seq<nat>) {
    |arcs| >= 2 && arcs[0] <= 2 && (arcs[0] < 2 ==> arcs[1] < 40)
  }

  /**
   * The arcs come back exactly when the byte of the first two has no high bit: from 128 on the rules ask for more than
   * one byte there, and a reader takes the high bit for one that is not the last.
   */
  lemma OidRoundTrip(arcs: seq<nat>)
    requires |arcs| >= 2
    ensures ReadOid(OidContent(arcs)) == Some(arcs) <==> AreArcs(arcs) && arcs[0] * 40 + arcs[1] < 0x80
  {
    hide ReadArcs, ReadArc, ArcsOf;
    var sum := arcs[0] * 40 + arcs[1];
    var first, rest := ToByte(sum), ArcsOf(arcs[2..]);
    ArcsRoundTrip(arcs[2..]);
    if first < 0x80 {
      OneByteFirst(first, rest);
      var top := if first < 40 then 0 else if first < 80 then 1 else 2;
      assert ([first] + arcs[2..])[1..] == arcs[2..];
      assert ReadOid(OidContent(arcs)) == Some([top, first - top * 40] + arcs[2..]);
      assert arcs == [arcs[0], arcs[1]] + arcs[2..];
    } else {
      assert sum >= 0x80;
      FewerArcs(first, rest, arcs);
    }
  }

  lemma OneByteFirst(first: Byte, rest: seq<Byte>)
    requires first < 0x80 && ReadArcs(rest).Some?
    ensures ReadArcs([first] + rest) == Some([first as nat] + ReadArcs(rest).value)
  {
    hide ReadArc;
    LowByte(first, rest, 0);
  }

  /** A first byte with the high bit swallows an arc. */
  lemma FewerArcs(first: Byte, rest: seq<Byte>, arcs: seq<nat>)
    requires first >= 0x80 && |arcs| >= 2 && ReadArcs(rest) == Some(arcs[2..])
    ensures ReadOid([first] + rest) != Some(arcs)
  {
    hide ReadArcs, ReadArc;
    AsManyAsEnds(rest);
    assert ([first] + rest)[1..] == rest;
    if ReadArcs([first] + rest).Some? {
      AsManyAsEnds([first] + rest);
    }
  }

  // ----- nested structures -----

  /** The structure of a DER document. */
  datatype Node = Leaf(tag: Byte, content: seq<Byte>) | Inner(tag: Byte, parts: seq<Node>)

  /** Bit 6 of a tag says that the content are elements. */
  predicate IsConstructed(tag: Byte) {
    (tag / 0x20) % 2 == 1
  }

  function Size(node: Node): nat
    decreases node
  {
    match node
    case Leaf(_, _) => 1
    case Inner(_, parts) => 1 + SizeOfAll(parts)
  }

  function SizeOfAll(nodes: seq<Node>): nat
    decreases nodes
  {
    if nodes == [] then 0 else Size(nodes[0]) + 1 + SizeOfAll(nodes[1..])
  }

  function EncodeNode(node: Node): seq<Byte>
    decreases Size(node)
  {
    match node
    case Leaf(tag, content) => Encode(tag, [content])
    case Inner(tag, parts) => Encode(tag, EncodeNodes(parts))
  }

  function EncodeNodes(nodes: seq<Node>): seq<seq<Byte>>
    decreases SizeOfAll(nodes)
  {
    if nodes == [] then [] else [EncodeNode(nodes[0])] + EncodeNodes(nodes[1..])
  }

  /** The tags say what the contents are, and no content is too long for its length. */
  predicate IsEncodable(node: Node)
    decreases Size(node)
  {
    match node
    case Leaf(tag, content) => !IsConstructed(tag) && |content| <= MAX_CONTENT
    case Inner(tag, parts) => IsConstructed(tag) && |Flatten(EncodeNodes(parts))| <= MAX_CONTENT && AreEncodable(parts)
  }

  predicate AreEncodable(nodes: seq<Node>)
    decreases SizeOfAll(nodes)
  {
    nodes == [] || (IsEncodable(nodes[0]) && AreEncodable(nodes[1..]))
  }

  /** Reads elements to the end of the bytes, and the ones inside of them. */
  function ReadNodes(bytes: seq<Byte>): Option<seq<Node>>
    decreases |bytes|
  {
    if bytes == [] then Some([])
    else
      match ReadElement(bytes)
      case None => None
      case Some((element, rest)) =>
        match ReadNodes(rest)
        case None => None
        case Some(others) =>
          if !IsConstructed(element.tag) then Some([Leaf(element.tag, element.content)] + others)
          else
            match ReadNodes(element.content)
            case None => None
            case Some(parts) => Some([Inner(element.tag, parts)] + others)
  }

  /** Nested structures are unambiguous: what was encoded, however deep, is read back as the same structure. */
  lemma {:induction false} NodesRoundTrip(nodes: seq<Node>)
    requires AreEncodable(nodes)
    ensures ReadNodes(Flatten(EncodeNodes(nodes))) == Some(nodes)
    decreases SizeOfAll(nodes)
  {
    hide ReadElement, Encode;
    if nodes != [] {
      var first, others := nodes[0], Flatten(EncodeNodes(nodes[1..]));
      var bytes := EncodeNode(first) + others;
      assert Flatten(EncodeNodes(nodes)) == bytes;
      NodesRoundTrip(nodes[1..]);
      var parts := if first.Leaf? then [first.content] else EncodeNodes(first.parts);
      ElementRoundTrip(first.tag, parts, others);
      EncodedIsNotEmpty(first.tag, parts);
      assert [first] + nodes[1..] == nodes;
      if first.Leaf? {
        FlattenOne(first.content);
      } else {
        assert Size(first) == 1 + SizeOfAll(first.parts);
        NodesRoundTrip(first.parts);
      }
    }
  }

  lemma FlattenOne(content: seq<Byte>)
    ensures Flatten([content]) == content
  {
    assert [content][1..] == [];
  }

  lemma EncodedIsNotEmpty(tag: Byte, parts: seq<seq<Byte>>)
    ensures Encode(tag, parts) != []
  {
  }

  // ----- the certificate request (RFC 2986) -----

  const COMMON_NAME := Oid([2, 5, 4, 3])
  const EXTENSION_REQUEST := Oid([1, 2, 840, 113549, 1, 9, 14])
  const SUBJECT_ALTERNATIVE_NAME := Oid([2, 5, 29, 17])
  const ECDSA_WITH_SHA256 := Oid([1, 2, 840, 10045, 4, 3, 2])

  /** A host name is ASCII, so that its length is the number of its bytes. */
  function SubjectName(hostname: seq<Byte>): seq<Byte> {
    Encode(SEQUENCE, if |hostname| > MAX_COMMON_NAME then []
                     else [Encode(SET, [Encode(SEQUENCE, [COMMON_NAME, Encode(UTF8_STRING, [hostname])])])])
  }

  function ExtensionRequest(hostname: seq<Byte>): seq<Byte> {
    var names := Encode(SEQUENCE, [Encode(DNS_NAME, [hostname])]);
    var extension := Encode(SEQUENCE, [SUBJECT_ALTERNATIVE_NAME, Encode(OCTET_STRING, [names])]);
    Encode(SEQUENCE, [EXTENSION_REQUEST, Encode(SET, [Encode(SEQUENCE, [extension])])])
  }

  function RequestInfo(hostname: seq<Byte>, publicKey: seq<Byte>): seq<Byte> {
    Encode(SEQUENCE, [Encode(INTEGER, [[0]]), SubjectName(hostname), publicKey,
      Encode(ATTRIBUTES, [ExtensionRequest(hostname)])])
  }

  /** The request for a host name with the exported public key, signed over the bytes of its information. */
  function CreateCertificateRequest(hostname: seq<Byte>, publicKey: seq<Byte>, sign: seq<Byte> -> seq<Byte>): seq<Byte>
  {
    var info := RequestInfo(hostname, publicKey);
    Encode(SEQUENCE, [info, Encode(SEQUENCE, [ECDSA_WITH_SHA256]), Encode(BIT_STRING, [[0], sign(info)])])
  }

  // ----- what a reader finds in it -----

  function OidNode(arcs: seq<nat>): Node
    requires |arcs| >= 2
  {
    Leaf(OID, OidContent(arcs))
  }

  function SubjectNode(hostname: seq<Byte>): Node {
    Inner(SEQUENCE, if |hostname| > MAX_COMMON_NAME then []
                    else [Inner(SET, [Inner(SEQUENCE, [OidNode([2, 5, 4, 3]), Leaf(UTF8_STRING, hostname)])])])
  }

  /** The names are a document of their own in an octet string. */
  function NamesNode(hostname: seq<Byte>): Node {
    Inner(SEQUENCE, [Leaf(DNS_NAME, hostname)])
  }

  function ExtensionNode(hostname: seq<Byte>): Node {
    var extension := Inner(SEQUENCE, [OidNode([2, 5, 29, 17]), Leaf(OCTET_STRING, EncodeNode(NamesNode(hostname)))]);
    Inner(SEQUENCE, [OidNode([1, 2, 840, 113549, 1, 9, 14]), Inner(SET, [Inner(SEQUENCE, [extension])])])
  }

  function InfoNode(hostname: seq<Byte>, publicKey: Node): Node {
    Inner(SEQUENCE, [Leaf(INTEGER, [0]), SubjectNode(hostname), publicKey,
      Inner(ATTRIBUTES, [ExtensionNode(hostname)])])
  }

  function RequestNode(hostname: seq<Byte>, publicKey: Node, signature: seq<Byte>): Node {
    Inner(SEQUENCE, [InfoNode(hostname, publicKey), Inner(SEQUENCE, [OidNode([1, 2, 840, 10045, 4, 3, 2])]),
      Leaf(BIT_STRING, [0] + signature)])
  }

  lemma Parts1(a: Node)
    ensures EncodeNodes([a]) == [EncodeNode(a)]
  {
    assert [a][1..] == [];
  }

  lemma Parts2(a: Node, b: Node)
    ensures EncodeNodes([a, b]) == [EncodeNode(a), EncodeNode(b)]
  {
    assert [a, b][1..] == [b];
    Parts1(b);
  }

  lemma Parts3(a: Node, b: Node, c: Node)
    ensures EncodeNodes([a, b, c]) == [EncodeNode(a), EncodeNode(b), EncodeNode(c)]
  {
    assert [a, b, c][1..] == [b, c];
    Parts2(b, c);
  }

  lemma Parts4(a: Node, b: Node, c: Node, d: Node)
    ensures EncodeNodes([a, b, c, d]) == [EncodeNode(a), EncodeNode(b), EncodeNode(c), EncodeNode(d)]
  {
    assert [a, b, c, d][1..] == [b, c, d];
    Parts3(b, c, d);
  }

  lemma SubjectIsItsNode(hostname: seq<Byte>)
    ensures SubjectName(hostname) == EncodeNode(SubjectNode(hostname))
  {
    hide Encode, Flatten, OidContent;
    if |hostname| <= MAX_COMMON_NAME {
      var name, value := OidNode([2, 5, 4, 3]), Leaf(UTF8_STRING, hostname);
      Parts2(name, value);
      Parts1(Inner(SEQUENCE, [name, value]));
      Parts1(Inner(SET, [Inner(SEQUENCE, [name, value])]));
    }
  }

  lemma ExtensionIsItsNode(hostname: seq<Byte>)
    ensures ExtensionRequest(hostname) == EncodeNode(ExtensionNode(hostname))
  {
    hide Encode, Flatten, OidContent;
    Parts1(Leaf(DNS_NAME, hostname));
    var id, value := OidNode([2, 5, 29, 17]), Leaf(OCTET_STRING, EncodeNode(NamesNode(hostname)));
    Parts2(id, value);
    var extension := Inner(SEQUENCE, [id, value]);
    Parts1(extension);
    Parts1(Inner(SEQUENCE, [extension]));
    Parts2(OidNode([1, 2, 840, 113549, 1, 9, 14]), Inner(SET, [Inner(SEQUENCE, [extension])]));
  }

  lemma InfoIsItsNode(hostname: seq<Byte>, publicKey: Node)
    ensures RequestInfo(hostname, EncodeNode(publicKey)) == EncodeNode(InfoNode(hostname, publicKey))
  {
    hide Encode, Flatten, OidContent, SubjectName, SubjectNode, ExtensionRequest, ExtensionNode;
    SubjectIsItsNode(hostname);
    ExtensionIsItsNode(hostname);
    Parts1(ExtensionNode(hostname));
    Parts4(Leaf(INTEGER, [0]), SubjectNode(hostname), publicKey, Inner(ATTRIBUTES, [ExtensionNode(hostname)]));
  }

  lemma RequestIsItsNode(hostname: seq<Byte>, publicKey: Node, sign: seq<Byte> -> seq<Byte>)
    ensures var signature := sign(RequestInfo(hostname, EncodeNode(publicKey)));
      CreateCertificateRequest(hostname, EncodeNode(publicKey), sign)
        == EncodeNode(RequestNode(hostname, publicKey, signature))
  {
    hide EncodeLength, RequestInfo, InfoNode, OidContent;
    var info := InfoNode(hostname, publicKey);
    var signature := sign(RequestInfo(hostname, EncodeNode(publicKey)));
    InfoIsItsNode(hostname, publicKey);
    var algorithm := OidNode([1, 2, 840, 10045, 4, 3, 2]);
    Parts1(algorithm);
    Parts3(info, Inner(SEQUENCE, [algorithm]), Leaf(BIT_STRING, [0] + signature));
    BitString(signature);
  }

  lemma BitString(signature: seq<Byte>)
    ensures Encode(BIT_STRING, [[0], signature]) == Encode(BIT_STRING, [[0] + signature])
  {
    FlattenOne([0] + signature);
    FlattenOne(signature);
    assert [[0], signature][1..] == [signature];
  }

  // ----- the request is read back -----

  lemma EncodedLength(tag: Byte, parts: seq<seq<Byte>>)
    ensures |Flatten(parts)| + 2 <= |Encode(tag, parts)| <= |Flatten(parts)| + 4
  {
    LengthOfLength(|Flatten(parts)|);
  }

  predicate HaveFittingTags(nodes: seq<Node>)
    decreases SizeOfAll(nodes)
  {
    nodes == [] || (HasFittingTags(nodes[0]) && HaveFittingTags(nodes[1..]))
  }

  /** Only the inner nodes have the tags of constructed elements. */
  predicate HasFittingTags(node: Node)
    decreases Size(node)
  {
    match node
    case Leaf(tag, _) => !IsConstructed(tag)
    case Inner(tag, parts) => IsConstructed(tag) && HaveFittingTags(parts)
  }

  /** Nothing inside is too long when the whole is not. */
  lemma {:induction false} EncodableByLength(nodes: seq<Node>)
    requires HaveFittingTags(nodes) && |Flatten(EncodeNodes(nodes))| <= MAX_CONTENT
    ensures AreEncodable(nodes)
    decreases SizeOfAll(nodes)
  {
    hide Encode;
    if nodes != [] {
      var first := nodes[0];
      assert Flatten(EncodeNodes(nodes)) == EncodeNode(first) + Flatten(EncodeNodes(nodes[1..]));
      EncodableByLength(nodes[1..]);
      if first.Leaf? {
        EncodedLength(first.tag, [first.content]);
        FlattenOne(first.content);
      } else {
        assert Size(first) == 1 + SizeOfAll(first.parts);
        EncodedLength(first.tag, EncodeNodes(first.parts));
        EncodableByLength(first.parts);
      }
    }
  }

  lemma FittingPair(a: Node, b: Node)
    requires HasFittingTags(a) && HasFittingTags(b)
    ensures HaveFittingTags([a, b])
  {
    assert [a, b][1..] == [b] && [b][1..] == [];
  }

  lemma FittingOne(a: Node)
    requires HasFittingTags(a)
    ensures HaveFittingTags([a])
  {
    assert [a][1..] == [];
  }

  lemma FittingFour(a: Node, b: Node, c: Node, d: Node)
    requires HasFittingTags(a) && HasFittingTags(b) && HasFittingTags(c) && HasFittingTags(d)
    ensures HaveFittingTags([b, c, d]) && HaveFittingTags([a, b, c, d])
  {
    assert [a, b, c, d][1..] == [b, c, d] && [b, c, d][1..] == [c, d];
    FittingPair(c, d);
  }

  lemma SubjectFits(hostname: seq<Byte>)
    ensures HasFittingTags(SubjectNode(hostname))
  {
    hide OidContent;
    if |hostname| <= MAX_COMMON_NAME {
      var name, value := OidNode([2, 5, 4, 3]), Leaf(UTF8_STRING, hostname);
      FittingPair(name, value);
      FittingOne(Inner(SEQUENCE, [name, value]));
      FittingOne(Inner(SET, [Inner(SEQUENCE, [name, value])]));
    }
  }

  lemma ExtensionFits(hostname: seq<Byte>)
    ensures HasFittingTags(ExtensionNode(hostname))
  {
    hide OidContent, EncodeNode;
    var id, value := OidNode([2, 5, 29, 17]), Leaf(OCTET_STRING, EncodeNode(NamesNode(hostname)));
    FittingPair(id, value);
    var extension := Inner(SEQUENCE, [id, value]);
    FittingOne(extension);
    FittingOne(Inner(SEQUENCE, [extension]));
    FittingPair(OidNode([1, 2, 840, 113549, 1, 9, 14]), Inner(SET, [Inner(SEQUENCE, [extension])]));
  }

  lemma InfoFits(hostname: seq<Byte>, publicKey: Node)
    requires HasFittingTags(publicKey)
    ensures HasFittingTags(InfoNode(hostname, publicKey))
  {
    hide SubjectNode, ExtensionNode;
    SubjectFits(hostname);
    ExtensionFits(hostname);
    FittingOne(ExtensionNode(hostname));
    FittingFour(Leaf(INTEGER, [0]), SubjectNode(hostname), publicKey, Inner(ATTRIBUTES, [ExtensionNode(hostname)]));
  }

  lemma RequestFits(hostname: seq<Byte>, publicKey: Node, signature: seq<Byte>)
    requires HasFittingTags(publicKey)
    ensures HasFittingTags(RequestNode(hostname, publicKey, signature))
  {
    hide InfoNode, OidContent;
    InfoFits(hostname, publicKey);
    FittingOne(OidNode([1, 2, 840, 10045, 4, 3, 2]));
    var algorithm, bits := Inner(SEQUENCE, [OidNode([1, 2, 840, 10045, 4, 3, 2])]), Leaf(BIT_STRING, [0] + signature);
    FittingFour(algorithm, InfoNode(hostname, publicKey), algorithm, bits);
  }

  /** The whole is read back when its own content is not too long, and only then. */
  lemma DocumentRoundTrip(tag: Byte, parts: seq<Node>)
    requires IsConstructed(tag) && HaveFittingTags(parts)
    ensures ReadNodes(EncodeNode(Inner(tag, parts))) == Some([Inner(tag, parts)])
      <==> |EncodeNode(Inner(tag, parts))| <= MAX_CONTENT + 4
  {
    hide ReadElement, ReadLength, HaveFittingTags, AreEncodable;
    var bytes, encoded := EncodeNode(Inner(tag, parts)), EncodeNodes(parts);
    EncodedLength(tag, encoded);
    TotalLength(tag, encoded);
    if |bytes| <= MAX_CONTENT + 4 {
      ElementRoundTrip(tag, encoded, []);
      assert bytes + [] == bytes;
      EncodableByLength(parts);
      NodesRoundTrip(parts);
      EncodedIsNotEmpty(tag, encoded);
      assert ReadElement(bytes) == Some((Element(tag, Flatten(encoded)), []));
      assert ReadNodes([]) == Some([]);
      assert [Inner(tag, parts)] + [] == [Inner(tag, parts)];
    } else if ReadElement(bytes).Some? {
      TooLongLeavesSome(tag, encoded);
      MoreThanOne(ReadElement(bytes).value.1);
    }
  }

  lemma TotalLength(tag: Byte, parts: seq<seq<Byte>>)
    ensures |Encode(tag, parts)| <= MAX_CONTENT + 4 <==> |Flatten(parts)| <= MAX_CONTENT
  {
  }

  lemma MoreThanOne(rest: seq<Byte>)
    requires rest != []
    ensures ReadNodes(rest) != Some([])
  {
  }

  /**
   * A reader of the rules finds in a certificate request exactly what was put into it: one document with the version,
   * the name, the public key, the alternative name, the algorithm and the signature of the information. That holds for
   * every host name, key and signature whose request is not too long for its length, and for no other.
   */
  lemma RequestRoundTrip(hostname: seq<Byte>, publicKey: Node, sign: seq<Byte> -> seq<Byte>)
    requires HasFittingTags(publicKey)
    ensures var request := CreateCertificateRequest(hostname, EncodeNode(publicKey), sign);
      var signature := sign(RequestInfo(hostname, EncodeNode(publicKey)));
      ReadNodes(request) == Some([RequestNode(hostname, publicKey, signature)]) <==> |request| <= MAX_CONTENT + 4
  {
    hide CreateCertificateRequest, RequestInfo, InfoNode, EncodeNode, ReadNodes, HaveFittingTags, OidContent;
    var signature := sign(RequestInfo(hostname, EncodeNode(publicKey)));
    RequestIsItsNode(hostname, publicKey, sign);
    var node := RequestNode(hostname, publicKey, signature);
    RequestFits(hostname, publicKey, signature);
    FittingParts(node);
    DocumentRoundTrip(SEQUENCE, node.parts);
  }

  lemma FittingParts(node: Node)
    requires node.Inner? && HasFittingTags(node)
    ensures HaveFittingTags(node.parts)
  {
  }

  // ----- how long a request is -----

  /** The object identifiers of the program are below the limit of their first octet. */
  lemma ProgramOidsComeBack()
    ensures forall arcs :: arcs in {[2, 5, 4, 3], [1, 2, 840, 113549, 1, 9, 14], [2, 5, 29, 17],
      [1, 2, 840, 10045, 4, 3, 2]} ==>
      |arcs| >= 2 && ReadOid(OidContent(arcs)) == Some(arcs)
  {
    hide OidContent, ReadOid;
    OidRoundTrip([2, 5, 4, 3]);
    OidRoundTrip([1, 2, 840, 113549, 1, 9, 14]);
    OidRoundTrip([2, 5, 29, 17]);
    OidRoundTrip([1, 2, 840, 10045, 4, 3, 2]);
  }

  /** The size of an element by the size of its content. */
  function ElementSize(content: nat): nat {
    1 + (if content < 0x80 then 1 else if content < 0x100 then 2 else 3) + content
  }

  function SubjectSize(hostname: nat): nat {
    ElementSize(if hostname > MAX_COMMON_NAME then 0 else ElementSize(ElementSize(5 + ElementSize(hostname))))
  }

  function ExtensionSize(hostname: nat): nat {
    ElementSize(11 + ElementSize(ElementSize(ElementSize(5 + ElementSize(ElementSize(ElementSize(hostname)))))))
  }

  /** The size of a request by the sizes of what is put into it. */
  function RequestSize(hostname: nat, publicKey: nat, signature: nat): nat {
    var info := ElementSize(3 + SubjectSize(hostname) + publicKey + ElementSize(ExtensionSize(hostname)));
    ElementSize(info + 12 + ElementSize(1 + signature))
  }

  lemma EncodedSize(tag: Byte, parts: seq<seq<Byte>>)
    ensures |Encode(tag, parts)| == ElementSize(|Flatten(parts)|)
  {
  }

  lemma Flatten1(a: seq<Byte>)
    ensures |Flatten([a])| == |a|
  {
    FlattenOne(a);
  }

  lemma Flatten2(a: seq<Byte>, b: seq<Byte>)
    ensures |Flatten([a, b])| == |a| + |b|
  {
    assert [a, b][1..] == [b];
    Flatten1(b);
  }

  lemma Flatten3(a: seq<Byte>, b: seq<Byte>, c: seq<Byte>)
    ensures |Flatten([a, b, c])| == |a| + |b| + |c|
  {
    assert [a, b, c][1..] == [b, c];
    Flatten2(b, c);
  }

  lemma Flatten4(a: seq<Byte>, b: seq<Byte>, c: seq<Byte>, d: seq<Byte>)
    ensures |Flatten([a, b, c, d])| == |a| + |b| + |c| + |d|
  {
    assert [a, b, c, d][1..] == [b, c, d];
    Flatten3(b, c, d);
  }

  lemma ShortArc(value: nat)
    ensures value < 0x80 ==> |Base128(value, true)| == 1
    ensures 0x80 <= value < 0x4000 ==> |Base128(value, true)| == 2
    ensures 0x4000 <= value < 0x20_0000 ==> |Base128(value, true)| == 3
  {
    if 0x4000 <= value < 0x20_0000 {
      assert 0x80 <= value / 0x80 < 0x4000 && value / 0x80 / 0x80 < 0x80;
      assert |Base128(value / 0x80 / 0x80, false)| == 1;
      assert |Base128(value / 0x80, false)| == 2;
    }
  }

  lemma ArcsPush(arc: nat, rest: seq<nat>)
    ensures |ArcsOf([arc] + rest)| == |Base128(arc, true)| + |ArcsOf(rest)|
  {
    assert ([arc] + rest)[1..] == rest;
  }

  lemma SmallArcs(a: nat, b: nat, rest: seq<nat>)
    requires a < 0x80 && b < 0x80
    ensures |ArcsOf([a, b] + rest)| == 2 + |ArcsOf(rest)|
  {
    hide ArcsOf, Base128;
    ShortArc(a);
    ShortArc(b);
    assert [a, b] + rest == [a] + ([b] + rest);
    ArcsPush(a, [b] + rest);
    ArcsPush(b, rest);
  }

  lemma ArcsEnd()
    ensures |ArcsOf([])| == 0
  {
  }

  /** The identifiers with their tags and lengths. */
  lemma OidSizes()
    ensures |COMMON_NAME| == 5 && |SUBJECT_ALTERNATIVE_NAME| == 5 && |EXTENSION_REQUEST| == 11
      && |ECDSA_WITH_SHA256| == 10
  {
    hide ArcsOf, Base128, Encode;
    ArcsEnd();
    SmallArcs(4, 3, []);
    assert [2, 5, 4, 3][2..] == [4, 3] + [];
    OidSize([2, 5, 4, 3]);
    SmallArcs(29, 17, []);
    assert [2, 5, 29, 17][2..] == [29, 17] + [];
    OidSize([2, 5, 29, 17]);
    ShortArc(840);
    ShortArc(113549);
    ShortArc(14);
    ArcsPush(14, []);
    SmallArcs(1, 9, [14]);
    assert [14] + [] == [14];
    ArcsPush(113549, [1, 9] + [14]);
    ArcsPush(840, [113549] + ([1, 9] + [14]));
    assert [1, 2, 840, 113549, 1, 9, 14][2..] == [840] + ([113549] + ([1, 9] + [14]));
    OidSize([1, 2, 840, 113549, 1, 9, 14]);
    ShortArc(10045);
    ShortArc(2);
    ArcsPush(2, []);
    assert [2] + [] == [2];
    SmallArcs(4, 3, [2]);
    ArcsPush(10045, [4, 3] + [2]);
    ArcsPush(840, [10045] + ([4, 3] + [2]));
    assert [1, 2, 840, 10045, 4, 3, 2][2..] == [840] + ([10045] + ([4, 3] + [2]));
    OidSize([1, 2, 840, 10045, 4, 3, 2]);
  }

  lemma OidSize(arcs: seq<nat>)
    requires |arcs| >= 2
    ensures |Oid(arcs)| == ElementSize(1 + |ArcsOf(arcs[2..])|)
  {
    hide ArcsOf, Encode, Flatten;
    EncodedSize(OID, [OidContent(arcs)]);
    Flatten1(OidContent(arcs));
  }

  lemma SubjectHasSize(hostname: seq<Byte>)
    ensures |SubjectName(hostname)| == SubjectSize(|hostname|)
  {
    hide Encode, Flatten, Oid, ElementSize;
    OidSizes();
    if |hostname| > MAX_COMMON_NAME {
      EncodedSize(SEQUENCE, []);
      NothingIsEmpty();
    } else {
      var value := Encode(UTF8_STRING, [hostname]);
      var name := Encode(SEQUENCE, [COMMON_NAME, value]);
      EncodedSize(UTF8_STRING, [hostname]);
      Flatten1(hostname);
      EncodedSize(SEQUENCE, [COMMON_NAME, value]);
      Flatten2(COMMON_NAME, value);
      EncodedSize(SET, [name]);
      Flatten1(name);
      EncodedSize(SEQUENCE, [Encode(SET, [name])]);
      Flatten1(Encode(SET, [name]));
    }
  }

  lemma NothingIsEmpty()
    ensures |Flatten<Byte>([])| == 0
  {
  }

  lemma ExtensionHasSize(hostname: seq<Byte>)
    ensures |ExtensionRequest(hostname)| == ExtensionSize(|hostname|)
  {
    hide Encode, Flatten, Oid, ElementSize;
    OidSizes();
    var name := Encode(DNS_NAME, [hostname]);
    EncodedSize(DNS_NAME, [hostname]);
    Flatten1(hostname);
    var names := Encode(SEQUENCE, [name]);
    EncodedSize(SEQUENCE, [name]);
    Flatten1(name);
    EncodedSize(OCTET_STRING, [names]);
    Flatten1(names);
    var extension := Encode(SEQUENCE, [SUBJECT_ALTERNATIVE_NAME, Encode(OCTET_STRING, [names])]);
    EncodedSize(SEQUENCE, [SUBJECT_ALTERNATIVE_NAME, Encode(OCTET_STRING, [names])]);
    Flatten2(SUBJECT_ALTERNATIVE_NAME, Encode(OCTET_STRING, [names]));
    var extensions := Encode(SEQUENCE, [extension]);
    EncodedSize(SEQUENCE, [extension]);
    Flatten1(extension);
    EncodedSize(SET, [extensions]);
    Flatten1(extensions);
    EncodedSize(SEQUENCE, [EXTENSION_REQUEST, Encode(SET, [extensions])]);
    Flatten2(EXTENSION_REQUEST, Encode(SET, [extensions]));
  }

  lemma RequestHasSize(hostname: seq<Byte>, publicKey: seq<Byte>, sign: seq<Byte> -> seq<Byte>)
    ensures |CreateCertificateRequest(hostname, publicKey, sign)|
         == RequestSize(|hostname|, |publicKey|, |sign(RequestInfo(hostname, publicKey))|)
  {
    hide Encode, Flatten, Oid, SubjectName, ExtensionRequest, SubjectSize, ExtensionSize;
    var extension, version := ExtensionRequest(hostname), Encode(INTEGER, [[0]]);
    SubjectHasSize(hostname);
    ExtensionHasSize(hostname);
    EncodedSize(INTEGER, [[0]]);
    Flatten1([0]);
    EncodedSize(ATTRIBUTES, [extension]);
    Flatten1(extension);
    EncodedSize(SEQUENCE, [version, SubjectName(hostname), publicKey, Encode(ATTRIBUTES, [extension])]);
    Flatten4(version, SubjectName(hostname), publicKey, Encode(ATTRIBUTES, [extension]));
    var info := RequestInfo(hostname, publicKey);
    OidSizes();
    var algorithm, bits := Encode(SEQUENCE, [ECDSA_WITH_SHA256]), Encode(BIT_STRING, [[0], sign(info)]);
    EncodedSize(SEQUENCE, [ECDSA_WITH_SHA256]);
    Flatten1(ECDSA_WITH_SHA256);
    EncodedSize(BIT_STRING, [[0], sign(info)]);
    Flatten2([0], sign(info));
    EncodedSize(SEQUENCE, [info, algorithm, bits]);
    Flatten3(info, algorithm, bits);
  }

  /**
   * So the sizes of the host name, the public key and the signature decide whether a request is read back. It always is
   * when they have 65300 bytes together, which is far from what they are.
   */
  lemma RequestRoundTripBySize(hostname: seq<Byte>, publicKey: Node, sign: seq<Byte> -> seq<Byte>)
    requires HasFittingTags(publicKey)
    ensures var key := EncodeNode(publicKey);
      var signature := sign(RequestInfo(hostname, key));
      var isRead := ReadNodes(CreateCertificateRequest(hostname, key, sign))
        == Some([RequestNode(hostname, publicKey, signature)]);
      && (isRead <==> RequestSize(|hostname|, |key|, |signature|) <= MAX_CONTENT + 4)
      && (|hostname| + |key| + |signature| <= 65300 ==> isRead)
  {
    hide CreateCertificateRequest, RequestInfo, ReadNodes, EncodeNode, HasFittingTags, RequestNode;
    RequestRoundTrip(hostname, publicKey, sign);
    RequestHasSize(hostname, EncodeNode(publicKey), sign);
  }
}
