/** Bytes and fixed-width integers, with the byte orders the protocol uses. */
module Bytes {

  type byte = x: int | 0 <= x < 0x100
  type u8 = x: int | 0 <= x < 0x100
  type u16 = x: int | 0 <= x < 0x1_0000
  type u32 = x: int | 0 <= x < 0x1_0000_0000
  type u64 = x: int | 0 <= x < 0x1_0000_0000_0000_0000

  // Big-endian: the frame length, the checksum, the SMP header and CBOR heads.

  function U16Be(n: u16): (s: seq<byte>)
    ensures |s| == 2
  {
    [n / 0x100, n % 0x100]
  }

  function FromU16Be(hi: byte, lo: byte): u16 {
    0x100 * hi + lo
  }

  function U32Be(n: u32): (s: seq<byte>)
    ensures |s| == 4
  {
    U16Be(n / 0x1_0000) + U16Be(n % 0x1_0000)
  }

  function FromU32Be(s: seq<byte>): u32
    requires |s| == 4
  {
    0x1_0000 * FromU16Be(s[0], s[1]) + FromU16Be(s[2], s[3])
  }

  function U64Be(n: u64): (s: seq<byte>)
    ensures |s| == 8
  {
    U32Be(n / 0x1_0000_0000) + U32Be(n % 0x1_0000_0000)
  }

  function FromU64Be(s: seq<byte>): u64
    requires |s| == 8
  {
    0x1_0000_0000 * FromU32Be(s[..4]) + FromU32Be(s[4..])
  }

  lemma U32BeRoundTrip(n: u32)
    ensures FromU32Be(U32Be(n)) == n
  {
  }

  lemma U64BeRoundTrip(n: u64)
    ensures FromU64Be(U64Be(n)) == n
  {
    U32BeRoundTrip(n / 0x1_0000_0000);
    U32BeRoundTrip(n % 0x1_0000_0000);
    assert U64Be(n)[..4] == U32Be(n / 0x1_0000_0000);
    assert U64Be(n)[4..] == U32Be(n % 0x1_0000_0000);
  }

  // Which byte comes first, spelled out.

  // The number that two or four bytes make, most significant first.
  function Two(a: int, b: int): int {
    0x100 * a + b
  }

  function Four(a: int, b: int, c: int, d: int): int {
    0x100_0000 * a + 0x1_0000 * b + 0x100 * c + d
  }

  lemma BigEndianBytes(m: u16, n: u32, s: seq<byte>)
    ensures Two(U16Be(m)[0], U16Be(m)[1]) == m
    ensures Four(U32Be(n)[0], U32Be(n)[1], U32Be(n)[2], U32Be(n)[3]) == n
    ensures |s| == 2 ==> FromU16Be(s[0], s[1]) == Two(s[0], s[1])
    ensures |s| == 4 ==> FromU32Be(s) == Four(s[0], s[1], s[2], s[3])
    ensures U16Be(0x1234) == [0x12, 0x34] && U32Be(0x1234_5678) == [0x12, 0x34, 0x56, 0x78]
  {
  }

  lemma BigEndian64(hi: u32, lo: u32)
    ensures U64Be(0x1_0000_0000 * hi + lo) == U32Be(hi) + U32Be(lo)
  {
    hide U32Be;
    assert (0x1_0000_0000 * hi + lo) / 0x1_0000_0000 == hi && (0x1_0000_0000 * hi + lo) % 0x1_0000_0000 == lo;
  }

  // Little-endian: MCUboot images.

  function U16Le(n: u16): (s: seq<byte>)
    ensures |s| == 2
  {
    [n % 0x100, n / 0x100]
  }

  function FromU16Le(s: seq<byte>): u16
    requires |s| == 2
  {
    FromU16Be(s[1], s[0])
  }

  function U32Le(n: u32): (s: seq<byte>)
    ensures |s| == 4
  {
    U16Le(n % 0x1_0000) + U16Le(n / 0x1_0000)
  }

  function FromU32Le(s: seq<byte>): u32
    requires |s| == 4
  {
    FromU16Le(s[..2]) + 0x1_0000 * FromU16Le(s[2..])
  }

  lemma U32LeRoundTrip(n: u32)
    ensures FromU32Le(U32Le(n)) == n
  {
    assert U32Le(n)[..2] == U16Le(n % 0x1_0000);
    assert U32Le(n)[2..] == U16Le(n / 0x1_0000);
  }

  lemma LittleEndianBytes(m: u16, n: u32)
    ensures Two(U16Le(m)[1], U16Le(m)[0]) == m
    ensures Four(U32Le(n)[3], U32Le(n)[2], U32Le(n)[1], U32Le(n)[0]) == n
    ensures U16Le(0x1234) == [0x34, 0x12] && U32Le(0x1234_5678) == [0x78, 0x56, 0x34, 0x12]
  {
  }

  lemma FromTwo(s: seq<byte>)
    requires |s| == 2
    ensures FromU16Le(s) == Two(s[1], s[0])
  {
  }

  lemma FromFour(s: seq<byte>)
    requires |s| == 4
    ensures FromU32Le(s) == Four(s[3], s[2], s[1], s[0])
  {
  }
}
