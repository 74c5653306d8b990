/** Machine integers and the little-endian fields shared by every protocol of the firmware. */
module Bytes {
  type byte = x: int | 0 <= x < 0x100
  type u16 = x: int | 0 <= x < 0x1_0000

  datatype Option<+T> = None | Some(value: T)

  /** 8-bit and 16-bit arithmetic wrap. */
  function U8(x: int): byte {
    x % 0x100
  }

  function U16(x: int): u16 {
    x % 0x1_0000
  }

  function PutLe16(x: u16): (b: seq<byte>)
    ensures |b| == 2
  {
    [x % 0x100, x / 0x100]
  }

  function GetLe16(lo: byte, hi: byte): u16 {
    lo + 0x100 * hi
  }

  function PutLe32(x: nat): (b: seq<byte>)
    requires x < 0x1_0000_0000
    ensures |b| == 4
  {
    PutLe16(x % 0x1_0000) + PutLe16(x / 0x1_0000)
  }

  function GetLe32(b0: byte, b1: byte, b2: byte, b3: byte): nat {
    b0 + 0x100 * (b1 + 0x100 * (b2 + 0x100 * b3))
  }

  lemma Le16RoundTrip(x: u16)
    ensures GetLe16(PutLe16(x)[0], PutLe16(x)[1]) == x
  {
  }

  lemma Le32RoundTrip(x: nat)
    requires x < 0x1_0000_0000
    ensures var b := PutLe32(x); GetLe32(b[0], b[1], b[2], b[3]) == x
  {
    Le16RoundTrip(x % 0x1_0000);
    Le16RoundTrip(x / 0x1_0000);
  }
}
