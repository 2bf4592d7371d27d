/**
 * Bytes as numbers, with the operators on them written out: `a & 0x0f` is `a % 16`, `a & 0x80` is `a >= 128`, `^` is
 * `Xor`.
 */
module Bytes {
  type Byte = b: int | 0 <= b < 256

  function PowerOfTwo(n: nat): nat {
    if n == 0 then 1 else 2 * PowerOfTwo(n - 1)
  }

  function XorBits(a: nat, b: nat, bits: nat): (r: nat)
    ensures r < PowerOfTwo(bits)
  {
    if bits == 0 then 0 else 2 * XorBits(a / 2, b / 2, bits - 1) + if a % 2 == b % 2 then 0 else 1
  }

  function Xor(a: Byte, b: Byte): Byte {
    assert PowerOfTwo(4) == 16;
    assert PowerOfTwo(8) == 256;
    XorBits(a, b, 8)
  }

  lemma {:induction false} XorBitsTwice(a: nat, m: nat, bits: nat)
    requires a < PowerOfTwo(bits)
    ensures XorBits(XorBits(a, m, bits), m, bits) == a
  {
    if bits > 0 {
      var x, bit := XorBits(a, m, bits), if a % 2 == m % 2 then 0 else 1;
      assert x == 2 * XorBits(a / 2, m / 2, bits - 1) + bit;
      assert x / 2 == XorBits(a / 2, m / 2, bits - 1) && x % 2 == bit;
      XorBitsTwice(a / 2, m / 2, bits - 1);
    }
  }

  lemma XorTwice(a: Byte, m: Byte)
    ensures Xor(Xor(a, m), m) == a
  {
    hide XorBits;
    assert PowerOfTwo(4) == 16;
    assert PowerOfTwo(8) == 256;
    XorBitsTwice(a, m, 8);
  }

  /** The bit of a number at a place, the lowest one first. */
  predicate Bit(n: nat, place: nat) {
    if place == 0 then n % 2 == 1 else Bit(n / 2, place - 1)
  }

  lemma {:induction false} XorBitsAt(a: nat, b: nat, bits: nat, place: nat)
    requires place < bits
    ensures Bit(XorBits(a, b, bits), place) <==> Bit(a, place) != Bit(b, place)
  {
    var rest := XorBits(a / 2, b / 2, bits - 1);
    assert XorBits(a, b, bits) == 2 * rest + if a % 2 == b % 2 then 0 else 1;
    assert XorBits(a, b, bits) / 2 == rest;
    if place > 0 {
      XorBitsAt(a / 2, b / 2, bits - 1, place - 1);
    }
  }

  /** Each bit is set exactly when one of the two is. */
  lemma XorAt(a: Byte, b: Byte, place: nat)
    requires place < 8
    ensures Bit(Xor(a, b), place) <==> Bit(a, place) != Bit(b, place)
  {
    hide XorBits, Bit;
    XorBitsAt(a, b, 8, place);
  }

  // ----- numbers of many bytes, the highest byte first -----

  function ReadUInt16(b: seq<Byte>, at: nat): (n: nat)
    requires at + 2 <= |b|
    ensures n < 0x1_0000
  {
    (b[at] as int) * 0x100 + b[at + 1] as int
  }

  function ReadUInt32(b: seq<Byte>, at: nat): (n: nat)
    requires at + 4 <= |b|
    ensures n < 0x1_0000_0000
  {
    ReadUInt16(b, at) * 0x1_0000 + ReadUInt16(b, at + 2)
  }

  function UInt16(n: nat): (b: seq<Byte>)
    requires n < 0x1_0000
    ensures |b| == 2
  {
    [n / 0x100, n % 0x100]
  }

  function UInt32(n: nat): (b: seq<Byte>)
    requires n < 0x1_0000_0000
    ensures |b| == 4
  {
    UInt16(n / 0x1_0000) + UInt16(n % 0x1_0000)
  }

  function UInt64(n: nat): (b: seq<Byte>)
    requires n < 0x1_0000_0000_0000_0000
    ensures |b| == 8
  {
    UInt32(n / 0x1_0000_0000) + UInt32(n % 0x1_0000_0000)
  }

  lemma UInt16Back(b: seq<Byte>, at: nat, n: nat)
    requires n < 0x1_0000 && at + 2 <= |b| && b[at..at + 2] == UInt16(n)
    ensures ReadUInt16(b, at) == n
  {
    assert b[at] == b[at..at + 2][0] && b[at + 1] == b[at..at + 2][1];
  }

  lemma UInt32Back(b: seq<Byte>, at: nat, n: nat)
    requires n < 0x1_0000_0000 && at + 4 <= |b| && b[at..at + 4] == UInt32(n)
    ensures ReadUInt32(b, at) == n
  {
    hide UInt16, ReadUInt16;
    assert b[at..at + 2] == b[at..at + 4][..2] == UInt16(n / 0x1_0000);
    assert b[at + 2..at + 4] == b[at..at + 4][2..] == UInt16(n % 0x1_0000);
    UInt16Back(b, at, n / 0x1_0000);
    UInt16Back(b, at + 2, n % 0x1_0000);
  }

  lemma UInt64Back(b: seq<Byte>, at: nat, n: nat)
    requires n < 0x1_0000_0000_0000_0000 && at + 8 <= |b| && b[at..at + 8] == UInt64(n)
    ensures ReadUInt32(b, at) * 0x1_0000_0000 + ReadUInt32(b, at + 4) == n
  {
    hide UInt32, ReadUInt32;
    assert b[at..at + 4] == b[at..at + 8][..4] == UInt32(n / 0x1_0000_0000);
    assert b[at + 4..at + 8] == b[at..at + 8][4..] == UInt32(n % 0x1_0000_0000);
    UInt32Back(b, at, n / 0x1_0000_0000);
    UInt32Back(b, at + 4, n % 0x1_0000_0000);
  }
}
