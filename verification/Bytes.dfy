/** Bytes and the fixed-width unsigned integers the wire formats use. */
module Bytes {

  type byte = n: int | 0 <= n < 0x100
  type u16 = n: int | 0 <= n < 0x1_0000
  type u32 = n: int | 0 <= n < 0x1_0000_0000

  /** Big-endian bytes of a 16-bit number. */
  function BigEndian16(n: u16): (b: seq<byte>)
    ensures |b| == 2
  {
    [n / 0x100, n % 0x100]
  }

  function FromBigEndian16(b: seq<byte>): u16
    requires |b| == 2
  {
    b[0] as int * 0x100 + b[1] as int
  }

  /** The more significant byte comes first. */
  lemma BigEndian16Layout(n: u16, b: seq<byte>)
    requires |b| == 2
    ensures BigEndian16(n)[0] as int * 256 + BigEndian16(n)[1] as int == n
    ensures FromBigEndian16(b) == b[0] as int * 256 + b[1] as int
  {
  }

  lemma BigEndian16RoundTrip(n: u16, b: seq<byte>)
    requires |b| == 2
    ensures FromBigEndian16(BigEndian16(n)) == n
    ensures BigEndian16(FromBigEndian16(b)) == b
  {
  }

  lemma ConcatAssociative<T>(a: seq<T>, b: seq<T>, c: seq<T>)
    ensures (a + b) + c == a + (b + c)
  {
  }
}
