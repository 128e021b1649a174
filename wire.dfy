/**
 * The `Convert` namespace of the command protocol: fixed-width little-endian
 * integer codecs over bytes.
 */
module Wire {

  type Byte = x: int | 0 <= x < 0x100
  type U16 = x: int | 0 <= x < 0x1_0000
  type U32 = x: int | 0 <= x < 0x1_0000_0000

  /** Reference meaning of a little-endian byte string: byte i weighs 256^i. */
  function LittleEndian(b: seq<Byte>): nat
  {
    if |b| == 0 then 0 else b[0] + 0x100 * LittleEndian(b[1..])
  }

  /** `to_bytes(uint16_t)`: byte i is `x >> 8*i` truncated to 8 bits. */
  function EncodeU16(x: U16): (b: seq<Byte>)
    ensures |b| == 2
    ensures LittleEndian(b) == x
  {
    assert LittleEndian([x / 0x100]) == x / 0x100;
    [x % 0x100, x / 0x100]
  }

  /** `from_bytes(bytes, uint16_t&)`: reads `bytes[off]` and `bytes[off + 1]`. */
  function DecodeU16(b: seq<Byte>, off: nat): (x: U16)
    requires off + 2 <= |b|
    ensures x == LittleEndian(b[off..off + 2])
  {
    assert b[off..off + 2][1..] == [b[off + 1]];
    assert LittleEndian([b[off + 1]]) == b[off + 1];
    (b[off + 1] as int) * 0x100 + b[off]
  }

  lemma DecodeEncodeU16(x: U16)
    ensures DecodeU16(EncodeU16(x), 0) == x
  {
    assert EncodeU16(x)[0..2] == EncodeU16(x);
  }

  lemma EncodeDecodeU16(b: seq<Byte>, off: nat)
    requires off + 2 <= |b|
    ensures EncodeU16(DecodeU16(b, off)) == b[off..off + 2]
  {
  }

  /** `to_bytes(uint32_t)`: byte i is `(x >> 8*i) & 0xFF`. */
  function EncodeU32(x: U32): (b: seq<Byte>)
    ensures |b| == 4
    ensures LittleEndian(b) == x
  {
    var b := [x % 0x100, x / 0x100 % 0x100, x / 0x1_0000 % 0x100, x / 0x100_0000];
    LittleEndianOf4(b);
    BytesOf(x);
    b
  }

  /** `x` is the weighted sum of its four bytes. */
  lemma BytesOf(x: U32)
    ensures x == x % 0x100 + 0x100 * (x / 0x100 % 0x100) + 0x1_0000 * (x / 0x1_0000 % 0x100) +
                 0x100_0000 * (x / 0x100_0000)
  {
    var r0, q1 := x % 0x100, x / 0x100;
    var r1, q2 := q1 % 0x100, q1 / 0x100;
    var r2, q3 := q2 % 0x100, q2 / 0x100;
    assert x == r0 + 0x100 * r1 + 0x1_0000 * r2 + 0x100_0000 * q3;
    HalfSplit(x, q2, r0 + 0x100 * r1);
    HighSplit(x, q3, r0 + 0x100 * r1 + 0x1_0000 * r2);
  }

  lemma LittleEndianOf4(b: seq<Byte>)
    requires |b| == 4
    ensures LittleEndian(b) == b[0] + 0x100 * (b[1] as int) + 0x1_0000 * (b[2] as int) + 0x100_0000 * (b[3] as int)
  {
    assert b[1..][1..][1..][1..] == [];
    assert LittleEndian(b[1..][1..][1..]) == b[3];
    assert LittleEndian(b[1..][1..]) == b[2] + 0x100 * (b[3] as int);
    assert LittleEndian(b[1..]) == b[1] + 0x100 * (b[2] + 0x100 * (b[3] as int));
  }

  /**
   * `from_bytes(bytes, uint32_t&)` exactly as the source writes it: it combines
   * bytes 0, 1, 4 and 3 (in that order of weight) and never reads byte 2, so it
   * needs five readable bytes.
   */
  function DecodeU32AsWritten(b: seq<Byte>, off: nat): (x: U32)
    requires off + 5 <= |b|
    ensures x == LittleEndian([b[off], b[off + 1], b[off + 4], b[off + 3]])
  {
    LittleEndianOf4([b[off], b[off + 1], b[off + 4], b[off + 3]]);
    (b[off + 3] as int) * 0x100_0000 + (b[off + 4] as int) * 0x1_0000 + (b[off + 1] as int) * 0x100 + b[off]
  }

  /** Byte 2 of the window has no influence on the as-written decoder. */
  lemma DecodeU32AsWrittenIgnoresByte2(b: seq<Byte>, off: nat, v: Byte)
    requires off + 5 <= |b|
    ensures DecodeU32AsWritten(b[off + 2 := v], off) == DecodeU32AsWritten(b, off)
  {
  }

  /** The as-written decoder is not the inverse of the encoder: 0x10000 decodes to 0. */
  lemma DecodeU32AsWrittenBreaksRoundTrip()
    ensures EncodeU32(0x1_0000) + [0] == [0, 0, 1, 0, 0]
    ensures DecodeU32AsWritten(EncodeU32(0x1_0000) + [0], 0) == 0
  {
  }

  /** The evidently intended decoder: bytes 0..3 of the window, little-endian. */
  function DecodeU32(b: seq<Byte>, off: nat): (x: U32)
    requires off + 4 <= |b|
    ensures x == LittleEndian(b[off..off + 4])
  {
    LittleEndianOf4(b[off..off + 4]);
    (b[off + 3] as int) * 0x100_0000 + (b[off + 2] as int) * 0x1_0000 + (b[off + 1] as int) * 0x100 + b[off]
  }

  lemma DecodeEncodeU32(x: U32)
    ensures DecodeU32(EncodeU32(x), 0) == x
  {
    assert EncodeU32(x)[0..4] == EncodeU32(x);
  }

  lemma EncodeDecodeU32(b: seq<Byte>, off: nat)
    requires off + 4 <= |b|
    ensures EncodeU32(DecodeU32(b, off)) == b[off..off + 4]
  {
    var b0: int, b1: int, b2: int, b3: int := b[off], b[off + 1], b[off + 2], b[off + 3];
    var x := DecodeU32(b, off);
    assert x == b3 * 0x100_0000 + b2 * 0x1_0000 + b1 * 0x100 + b0;
    ByteSplit(x, b1 + 0x100 * (b2 + 0x100 * b3), b0);
    ByteSplit(b1 + 0x100 * (b2 + 0x100 * b3), b2 + 0x100 * b3, b1);
    HalfSplit(x, b2 + 0x100 * b3, b0 + 0x100 * b1);
    HighSplit(x, b3, b0 + 0x100 * b1 + 0x1_0000 * b2);
    var e := EncodeU32(x);
    assert e == [x % 0x100, x / 0x100 % 0x100, x / 0x1_0000 % 0x100, x / 0x100_0000];
    assert e == [b0, b1, b2, b3];
  }

  lemma ByteSplit(x: int, hi: int, lo: int)
    requires 0 <= lo < 0x100 && x == hi * 0x100 + lo
    ensures x / 0x100 == hi && x % 0x100 == lo
  {
  }

  lemma HalfSplit(x: int, hi: int, lo: int)
    requires 0 <= lo < 0x1_0000 && x == hi * 0x1_0000 + lo
    ensures x / 0x1_0000 == hi
  {
  }

  lemma HighSplit(x: int, hi: int, lo: int)
    requires 0 <= lo < 0x100_0000 && x == hi * 0x100_0000 + lo
    ensures x / 0x100_0000 == hi
  {
  }
}
