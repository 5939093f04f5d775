/** Fixed-width integers and the network (big-endian) byte order used by the
    transport's 4-byte length prefix. */
module Bytes {

  /** One octet, as carried by TArray<uint8>. */
  type byte = b: int | 0 <= b < 0x100

  /** An unsigned 32-bit value (the C++ uint32). */
  type uint32 = n: int | 0 <= n < 0x1_0000_0000

  /** The largest signed 32-bit value; TArray counts its elements in an int32,
      so no array holds more than this many bytes. */
  const MaxInt32: int := 0x7FFF_FFFF

  /** `static_cast<int32>(n)`: the two's-complement reinterpretation of a uint32. */
  function Int32Of(n: uint32): (r: int)
    ensures -0x8000_0000 <= r <= MaxInt32
    ensures r >= 0 <==> n <= MaxInt32
    ensures r >= 0 ==> r == n
    ensures r < 0 ==> r + 0x1_0000_0000 == n
  {
    if n <= MaxInt32 then n else n - 0x1_0000_0000
  }

  /** The four bytes of `n` in network order, as left in memory by
      `htonl(n)` and copied out byte by byte. */
  function BigEndian32(n: uint32): (r: seq<byte>)
    ensures |r| == 4
    ensures r[0] == n / 0x100_0000 && r[3] == n % 0x100
  {
    var d, m1 := n % 0x100, n / 0x100;
    var c, m2 := m1 % 0x100, m1 / 0x100;
    var b, a := m2 % 0x100, m2 / 0x100;
    DivModHigh(a, 0x1_0000 * b + 0x100 * c + d);
    [a, b, c, d]
  }

  /** The value `ntohl` yields for the first four bytes of `s` copied into a
      uint32: the first byte is the most significant, the fourth the least. */
  function ReadBigEndian32(s: seq<byte>): (r: uint32)
    requires |s| >= 4
    ensures r / 0x100_0000 == s[0] && r % 0x100 == s[3]
  {
    var low := (s[1] as int) * 0x1_0000 + (s[2] as int) * 0x100 + s[3] as int;
    DivModHigh(s[0], low);
    DivModByte((s[0] as int) * 0x1_0000 + (s[1] as int) * 0x100 + s[2] as int, s[3]);
    (s[0] as int) * 0x100_0000 + low
  }

  /** Dividing `256 * q + r` by 256 gives back `q` and `r`. */
  lemma DivModByte(q: int, r: int)
    requires q >= 0 && 0 <= r < 0x100
    ensures (0x100 * q + r) / 0x100 == q
    ensures (0x100 * q + r) % 0x100 == r
  {
  }

  /** Dividing `2^24 * q + r` by 2^24 gives back `q`. */
  lemma DivModHigh(q: int, r: int)
    requires q >= 0 && 0 <= r < 0x100_0000
    ensures (0x100_0000 * q + r) / 0x100_0000 == q
  {
  }

  /** Reading back the network-order bytes of `n` yields `n` (ntohl after htonl). */
  lemma ReadWriteBigEndian32(n: uint32)
    ensures ReadBigEndian32(BigEndian32(n)) == n
  {
    var d, m1 := n % 0x100, n / 0x100;
    var c, m2 := m1 % 0x100, m1 / 0x100;
    var b, a := m2 % 0x100, m2 / 0x100;
    assert n == 0x100 * m1 + d;
    assert m1 == 0x100 * m2 + c;
    assert m2 == 0x100 * a + b;
    assert BigEndian32(n) == [a, b, c, d];
  }

  /** Writing back the value read from four bytes reproduces those bytes
      (htonl after ntohl). */
  lemma WriteReadBigEndian32(s: seq<byte>)
    requires |s| >= 4
    ensures BigEndian32(ReadBigEndian32(s)) == s[..4]
  {
    var n := ReadBigEndian32(s);
    var m2: int := 0x100 * (s[0] as int) + s[1] as int;
    var m1: int := 0x100 * m2 + s[2] as int;
    assert n == 0x100 * m1 + s[3] as int;
    DivModByte(m1, s[3]);
    DivModByte(m2, s[2]);
    DivModByte(s[0], s[1]);
    assert BigEndian32(n) == [s[0], s[1], s[2], s[3]];
  }

  /** Four bytes determine their value and the value determines the bytes. */
  lemma ReadBigEndian32Injective(a: seq<byte>, b: seq<byte>)
    requires |a| == 4 && |b| == 4
    requires ReadBigEndian32(a) == ReadBigEndian32(b)
    ensures a == b
  {
    WriteReadBigEndian32(a);
    WriteReadBigEndian32(b);
    assert a == a[..4] && b == b[..4];
  }
}
