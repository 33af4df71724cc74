// Java's fixed-width integers and their big-endian two's-complement byte
// form, as DataOutputStream writes them and DataInputStream reads them.

module Bytes {

  /** An unsigned byte as it sits on the wire. */
  type Byte = b: int | 0 <= b < 256

  type Int8 = x: int | -0x80 <= x < 0x80
  type Int16 = x: int | -0x8000 <= x < 0x8000
  type Int32 = x: int | -0x8000_0000 <= x < 0x8000_0000
  type Int64 = x: int | -0x8000_0000_0000_0000 <= x < 0x8000_0000_0000_0000
  /** A Java `char`: one unsigned UTF-16 code unit. */
  type Char16 = x: int | 0 <= x < 0x1_0000

  function Pow256(n: nat): (r: nat)
    ensures r >= 1
  {
    if n == 0 then 1 else 256 * Pow256(n - 1)
  }

  /** The smallest value of an n-byte two's-complement integer is -Half(n). */
  function Half(n: nat): (r: int)
    requires n >= 1
    ensures r >= 1 && 2 * r == Pow256(n)
  {
    128 * Pow256(n - 1)
  }

  lemma Pow256Values()
    ensures Pow256(1) == 0x100 && Pow256(2) == 0x1_0000
    ensures Pow256(4) == 0x1_0000_0000
    ensures Pow256(8) == 0x1_0000_0000_0000_0000
  {
    assert Pow256(2) == 256 * Pow256(1);
    assert Pow256(3) == 256 * Pow256(2);
    assert Pow256(4) == 256 * Pow256(3);
    assert Pow256(5) == 256 * Pow256(4);
    assert Pow256(6) == 256 * Pow256(5);
    assert Pow256(7) == 256 * Pow256(6);
    assert Pow256(8) == 256 * Pow256(7);
  }

  /** Unsigned big-endian value of a byte string (most significant byte first). */
  function FromBigEndian(s: seq<Byte>): (r: nat)
    ensures r < Pow256(|s|)
  {
    if s == [] then 0 else 256 * FromBigEndian(s[..|s| - 1]) + s[|s| - 1]
  }

  /** The n-byte big-endian form of an unsigned value. */
  function ToBigEndian(x: nat, n: nat): (r: seq<Byte>)
    requires x < Pow256(n)
    ensures |r| == n
  {
    if n == 0 then [] else ToBigEndian(x / 256, n - 1) + [x % 256]
  }

  lemma {:induction false} FromToBigEndian(x: nat, n: nat)
    requires x < Pow256(n)
    ensures FromBigEndian(ToBigEndian(x, n)) == x
  {
    if n > 0 {
      var s := ToBigEndian(x, n);
      assert s[..n - 1] == ToBigEndian(x / 256, n - 1);
      FromToBigEndian(x / 256, n - 1);
    }
  }

  lemma {:induction false} ToFromBigEndian(s: seq<Byte>)
    ensures ToBigEndian(FromBigEndian(s), |s|) == s
  {
    if s != [] {
      var x := FromBigEndian(s);
      assert x / 256 == FromBigEndian(s[..|s| - 1]) && x % 256 == s[|s| - 1];
      ToFromBigEndian(s[..|s| - 1]);
    }
  }

  /** The n-byte two's-complement representative of a signed value. */
  function ToUnsigned(x: int, n: nat): (u: nat)
    requires n >= 1 && -Half(n) <= x < Half(n)
    ensures u < Pow256(n)
  {
    if x >= 0 then x else x + Pow256(n)
  }

  /** Reads an n-byte unsigned value as two's complement: the top bit is the sign. */
  function ToSigned(u: nat, n: nat): (x: int)
    requires n >= 1 && u < Pow256(n)
    ensures -Half(n) <= x < Half(n)
  {
    if u >= Half(n) then u - Pow256(n) else u
  }

  /** writeInt/writeLong/writeShort/writeByte for an n-byte value. */
  function EncodeSigned(x: int, n: nat): (r: seq<Byte>)
    requires n >= 1 && -Half(n) <= x < Half(n)
    ensures |r| == n
  {
    ToBigEndian(ToUnsigned(x, n), n)
  }

  /** readInt/readLong/readShort/readByte over exactly the value's bytes. */
  function DecodeSigned(s: seq<Byte>): (x: int)
    requires |s| >= 1
    ensures -Half(|s|) <= x < Half(|s|)
  {
    ToSigned(FromBigEndian(s), |s|)
  }

  lemma SignedRoundTrip(x: int, n: nat)
    requires n >= 1 && -Half(n) <= x < Half(n)
    ensures DecodeSigned(EncodeSigned(x, n)) == x
  {
    FromToBigEndian(ToUnsigned(x, n), n);
  }

  /** Every n-byte string is the encoding of the value it decodes to. */
  lemma SignedReencode(s: seq<Byte>)
    requires |s| >= 1
    ensures EncodeSigned(DecodeSigned(s), |s|) == s
  {
    ToFromBigEndian(s);
  }

  /** The leading byte of an unsigned value's big-endian form has its top bit set
      exactly when the value is at least Half(n). */
  lemma {:induction false} TopBit(u: nat, n: nat)
    requires n >= 1 && u < Pow256(n)
    ensures (u >= Half(n)) <==> (ToBigEndian(u, n)[0] >= 128)
  {
    if n > 1 {
      TopBit(u / 256, n - 1);
      assert ToBigEndian(u, n)[0] == ToBigEndian(u / 256, n - 1)[0];
    }
  }

  /** The sign of a two's-complement value is the top bit of its first byte. */
  lemma SignIsTopBit(x: int, n: nat)
    requires n >= 1 && -Half(n) <= x < Half(n)
    ensures (x < 0) <==> (EncodeSigned(x, n)[0] >= 128)
  {
    TopBit(ToUnsigned(x, n), n);
  }

  /** Java's narrowing of an arbitrary integer to `int`: keep the low 32 bits. */
  function WrapInt32(x: int): (r: Int32)
    ensures (r - x) % 0x1_0000_0000 == 0
  {
    var m := x % 0x1_0000_0000;
    if m >= 0x8000_0000 then m - 0x1_0000_0000 else m
  }

  lemma WrapInt32Identity(x: int)
    requires -0x8000_0000 <= x < 0x8000_0000
    ensures WrapInt32(x) == x
  {
  }

  /** The signed reading of an unsigned byte, as Java's `byte` type holds it. */
  function SignedByte(b: Byte): (r: Int8)
    ensures r == DecodeSigned([b])
  {
    if b >= 128 then b - 256 else b
  }
}
