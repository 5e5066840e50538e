/** Bytes, 32-bit big-endian integers and the byte buffers that the serialisers read from and
    write to (`internal/bytesx`). */
module Bytes {

  type Byte = x: int | 0 <= x < 256

  const MAX_UINT8: int := 0xFF
  const MAX_UINT16: int := 0xFFFF
  const MAX_UINT32: int := 0xFFFF_FFFF
  const TWO_32: int := 0x1_0000_0000

  type UInt32 = x: int | 0 <= x <= 0xFFFF_FFFF

  datatype Option<+T> = None | Some(value: T)

  datatype Result<+T, +E> = Ok(value: T) | Err(error: E)

  function PutUint32(v: UInt32): (b: seq<Byte>)
    ensures |b| == 4
  {
    [v / 0x100_0000, v / 0x1_0000 % 256, v / 0x100 % 256, v % 256]
  }

  function GetUint32(b: seq<Byte>): UInt32
    requires |b| == 4
  {
    b[0] as int * 0x100_0000 + b[1] as int * 0x1_0000 + b[2] as int * 0x100 + b[3] as int
  }

  /** Four bytes and a 32-bit integer are the same information. */
  lemma Uint32RoundTrip(v: UInt32)
    ensures GetUint32(PutUint32(v)) == v
  {
    var x, y, z := v / 0x100, v / 0x100 / 0x100, v / 0x100 / 0x100 / 0x100;
    Digits(v, z, y % 256, x % 256, v % 256);
  }

  /** The four bytes at an offset are the big-endian form of `v`: the most significant comes first. */
  ghost predicate HoldsUint32(b: seq<Byte>, at: nat, v: int) {
    at + 4 <= |b| && v == b[at] as int * 16_777_216 + b[at + 1] as int * 65_536 + b[at + 2] as int * 256 + b[at + 3]
  }

  lemma BigEndian(v: UInt32)
    ensures HoldsUint32(PutUint32(v), 0, v)
  {
    Uint32RoundTrip(v);
  }

  /** The base-256 digits of a number are unique. */
  lemma Digits(v: int, a: int, b: int, c: int, d: int)
    requires 0 <= b < 256 && 0 <= c < 256 && 0 <= d < 256
    requires v == ((a * 256 + b) * 256 + c) * 256 + d
    ensures v / 0x100_0000 == a && v / 0x1_0000 % 256 == b && v / 0x100 % 256 == c && v % 256 == d
  {
    var x, y := (a * 256 + b) * 256 + c, a * 256 + b;
    LastDigit(v, x, d);
    LastDigit(x, y, c);
    LastDigit(y, a, b);
    assert v / 0x1_0000 == y by { assert v == 0x1_0000 * y + (c * 256 + d); }
    assert v / 0x100_0000 == a by { assert v == 0x100_0000 * a + (b * 0x1_0000 + c * 256 + d); }
  }

  lemma LastDigit(v: int, q: int, d: int)
    requires 0 <= d < 256 && v == q * 256 + d
    ensures v / 0x100 == q && v % 256 == d
  {}

  lemma Uint32RoundTripBack(b: seq<Byte>)
    requires |b| == 4
    ensures PutUint32(GetUint32(b)) == b
  {
    Digits(GetUint32(b), b[0], b[1], b[2], b[3]);
  }

  lemma PutUint32Injective(v: UInt32, w: UInt32)
    requires PutUint32(v) == PutUint32(w)
    ensures v == w
  {
    Uint32RoundTrip(v);
    Uint32RoundTrip(w);
  }

  /** `bytes.Buffer`: writes append, reads consume from the front. */
  class Buffer {
    var data: seq<Byte>

    constructor (initial: seq<Byte>)
      ensures data == initial
    {
      data := initial;
    }

    method WriteByte(b: Byte)
      modifies this
      ensures data == old(data) + [b]
    {
      data := data + [b];
    }

    method Write(b: seq<Byte>)
      modifies this
      ensures data == old(data) + b
    {
      data := data + b;
    }

    method WriteUint32(v: UInt32)
      modifies this
      ensures data == old(data) + PutUint32(v)
    {
      Write(PutUint32(v));
    }

    /** The three low-order bytes of the big-endian form. */
    method WriteUint24(v: UInt32)
      modifies this
      ensures data == old(data) + PutUint32(v)[1..]
    {
      var b := new Buffer([]);
      b.WriteUint32(v);
      Write(b.data[1..]);
    }

    method ReadByte() returns (r: Option<Byte>)
      modifies this
      ensures old(data) == [] ==> r == None && data == []
      ensures old(data) != [] ==> r == Some(old(data)[0]) && data == old(data)[1..]
    {
      if data == [] {
        return None;
      }
      r := Some(data[0]);
      data := data[1..];
    }

    /** `io.ReadFull`: all of the requested bytes, or an error with the buffer drained. */
    method ReadFull(n: nat) returns (r: Option<seq<Byte>>)
      modifies this
      ensures |old(data)| < n ==> r == None && data == []
      ensures |old(data)| >= n ==> r == Some(old(data)[..n]) && data == old(data)[n..]
    {
      if |data| < n {
        data := [];
        return None;
      }
      r := Some(data[..n]);
      data := data[n..];
    }

    method ReadUint32() returns (r: Option<UInt32>)
      modifies this
      ensures |old(data)| < 4 ==> r == None
      ensures |old(data)| >= 4 ==> r == Some(GetUint32(old(data)[..4])) && data == old(data)[4..]
    {
      var four := ReadFull(4);
      if four.None? {
        return None;
      }
      r := Some(GetUint32(four.value));
    }
  }
}
