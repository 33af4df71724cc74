// BigInteger.toByteArray and new BigInteger(byte[]): the minimal big-endian
// two's-complement form of an arbitrary integer, as the BigDecimal fields of
// the binary format carry their unscaled value.

module TwosComplement {
  import opened Wrappers
  import opened Bytes

  function Abs(x: int): nat { if x < 0 then -x else x }

  /** Number of bytes toByteArray produces: the fewest that hold x with a sign bit. */
  function ByteLength(x: int): (n: nat)
    ensures n >= 1
    decreases Abs(x)
  {
    if -128 <= x < 128 then 1 else 1 + ByteLength(x / 256)
  }

  /** x lies in the range of an n-byte two's-complement integer. */
  predicate FitsIn(x: int, n: nat)
  {
    n >= 1 && -Half(n) <= x < Half(n)
  }

  lemma {:induction false} ByteLengthFits(x: int)
    ensures FitsIn(x, ByteLength(x))
    decreases Abs(x)
  {
    if !(-128 <= x < 128) {
      var n := ByteLength(x / 256);
      ByteLengthFits(x / 256);
      var h := Half(n);
      assert Half(n + 1) == 256 * h;
      assert x == 256 * (x / 256) + x % 256;
    }
  }

  /** No shorter form holds x: toByteArray is minimal. */
  lemma {:induction false} ByteLengthMinimal(x: int, m: nat)
    requires 1 <= m < ByteLength(x)
    ensures !FitsIn(x, m)
    decreases Abs(x)
  {
    var q := x / 256;
    assert x == 256 * q + x % 256;
    if m > 1 {
      ByteLengthMinimal(q, m - 1);
      var h := Half(m - 1);
      assert Half(m) == 256 * h;
    }
  }

  /** BigInteger.toByteArray. */
  function ToByteArray(x: int): (r: seq<Byte>)
    ensures |r| == ByteLength(x)
  {
    ByteLengthFits(x);
    EncodeSigned(x, ByteLength(x))
  }

  /** new BigInteger(bytes): the empty array is refused (NumberFormatException). */
  function FromByteArray(s: seq<Byte>): (r: Option<int>)
    ensures r.None? <==> s == []
  {
    if s == [] then None else Some(DecodeSigned(s))
  }

  lemma ByteArrayRoundTrip(x: int)
    ensures FromByteArray(ToByteArray(x)) == Some(x)
  {
    ByteLengthFits(x);
    SignedRoundTrip(x, ByteLength(x));
  }
}
