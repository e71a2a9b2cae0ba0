/**
 * Fixed-width unsigned integers and their byte encodings.
 *
 * Every header the connector protocol exchanges is a run of unsigned
 * integers of 1, 2, 4 or 8 bytes laid out at fixed offsets.  This module
 * gives the integer types, the two byte orders a host may use, and the
 * encoding of a w-byte integer in either order, with both round trips.
 */
module Bytes {

  type u8 = x: int | 0 <= x < 0x100
  type u16 = x: int | 0 <= x < 0x1_0000
  type u32 = x: int | 0 <= x < 0x1_0000_0000
  type u64 = x: int | 0 <= x < 0x1_0000_0000_0000_0000

  /** The two byte orders of Go's encoding/binary package. */
  datatype ByteOrder = BigEndian | LittleEndian

  /** 256^w: one more than the largest value a w-byte integer holds. */
  function Pow256(w: nat): (p: nat)
    ensures p >= 1
  {
    if w == 0 then 1 else 256 * Pow256(w - 1)
  }

  /** Go's uintN(x) conversion of a (possibly negative) int: reduction modulo 2^N. */
  function ToU16(x: int): (r: u16)
    ensures (r - x) % 0x1_0000 == 0
  {
    x % 0x1_0000
  }

  function ToU32(x: int): (r: u32)
    ensures (r - x) % 0x1_0000_0000 == 0
    ensures 0 <= x < 0x1_0000_0000 ==> r == x
  {
    x % 0x1_0000_0000
  }

  /** The w low-order bytes of x, least significant first. */
  function LittleBytes(x: nat, w: nat): (b: seq<u8>)
    ensures |b| == w
  {
    if w == 0 then [] else [x % 256] + LittleBytes(x / 256, w - 1)
  }

  /** The w low-order bytes of x, most significant first. */
  function BigBytes(x: nat, w: nat): (b: seq<u8>)
    ensures |b| == w
  {
    if w == 0 then [] else BigBytes(x / 256, w - 1) + [x % 256]
  }

  /** The bytes of a w-byte integer in the given order (x is truncated to w bytes). */
  function Encode(order: ByteOrder, x: nat, w: nat): (b: seq<u8>)
    ensures |b| == w
  {
    match order
    case LittleEndian => LittleBytes(x, w)
    case BigEndian => BigBytes(x, w)
  }

  function FromLittle(b: seq<u8>): (x: nat)
    ensures x < Pow256(|b|)
  {
    if b == [] then 0 else b[0] + 256 * FromLittle(b[1..])
  }

  function FromBig(b: seq<u8>): (x: nat)
    ensures x < Pow256(|b|)
  {
    if b == [] then 0 else FromBig(b[..|b| - 1]) * 256 + b[|b| - 1]
  }

  /** The unsigned integer whose bytes, in the given order, are b. */
  function Decode(order: ByteOrder, b: seq<u8>): (x: nat)
    ensures x < Pow256(|b|)
  {
    match order
    case LittleEndian => FromLittle(b)
    case BigEndian => FromBig(b)
  }

  /** The w-byte unsigned integer stored at byte offset off of b. */
  function ReadUint(order: ByteOrder, b: seq<u8>, off: nat, w: nat): (x: nat)
    requires off + w <= |b|
    ensures x < Pow256(w)
  {
    Decode(order, b[off..off + w])
  }

  lemma {:induction false} LittleRoundTrip(x: nat, w: nat)
    requires x < Pow256(w)
    ensures FromLittle(LittleBytes(x, w)) == x
  {
    if w > 0 {
      var rest := LittleBytes(x / 256, w - 1);
      assert LittleBytes(x, w)[1..] == rest;
      LittleRoundTrip(x / 256, w - 1);
    }
  }

  lemma {:induction false} BigRoundTrip(x: nat, w: nat)
    requires x < Pow256(w)
    ensures FromBig(BigBytes(x, w)) == x
  {
    if w > 0 {
      var b := BigBytes(x, w);
      assert b[..w - 1] == BigBytes(x / 256, w - 1);
      BigRoundTrip(x / 256, w - 1);
    }
  }

  /** Decoding the encoding of a value that fits in w bytes gives the value back. */
  lemma DecodeEncode(order: ByteOrder, x: nat, w: nat)
    requires x < Pow256(w)
    ensures Decode(order, Encode(order, x, w)) == x
  {
    match order
    case LittleEndian => LittleRoundTrip(x, w);
    case BigEndian => BigRoundTrip(x, w);
  }

  lemma {:induction false} LittleOfFromLittle(b: seq<u8>)
    ensures LittleBytes(FromLittle(b), |b|) == b
  {
    if b != [] {
      var x := FromLittle(b);
      assert x % 256 == b[0] && x / 256 == FromLittle(b[1..]);
      LittleOfFromLittle(b[1..]);
    }
  }

  lemma {:induction false} BigOfFromBig(b: seq<u8>)
    ensures BigBytes(FromBig(b), |b|) == b
  {
    if b != [] {
      var n := |b|;
      var x := FromBig(b);
      assert x % 256 == b[n - 1] && x / 256 == FromBig(b[..n - 1]);
      BigOfFromBig(b[..n - 1]);
      assert b == b[..n - 1] + [b[n - 1]];
    }
  }

  /** Encoding a decoded byte string gives the same bytes back. */
  lemma EncodeDecode(order: ByteOrder, b: seq<u8>)
    ensures Encode(order, Decode(order, b), |b|) == b
  {
    match order
    case LittleEndian => LittleOfFromLittle(b);
    case BigEndian => BigOfFromBig(b);
  }

  /** Reading w bytes at offset off of a buffer holding the encoding of x there gives x. */
  lemma ReadEncodedAt(order: ByteOrder, b: seq<u8>, off: nat, x: nat, w: nat)
    requires x < Pow256(w)
    requires off + w <= |b| && b[off..off + w] == Encode(order, x, w)
    ensures ReadUint(order, b, off, w) == x
  {
    DecodeEncode(order, x, w);
  }
}
