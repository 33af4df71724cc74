// String.getBytes(UTF_8) and new String(bytes, UTF_8), at the byte level.
// Text is a sequence of Unicode scalar values (code points other than
// surrogates), which is what a well-formed Java string denotes.

module Utf8 {
  import opened Bytes

  type CodePoint = c: int | 0 <= c < 0x11_0000 && !(0xD800 <= c < 0xE000)

  type Text = seq<CodePoint>

  /** U+FFFD, what the decoder yields for a byte it cannot accept. */
  const REPLACEMENT: CodePoint := 0xFFFD

  /** The one to four UTF-8 bytes of a code point (shortest form). */
  function EncodeCodePoint(c: CodePoint): (r: seq<Byte>)
    ensures 1 <= |r| <= 4
    ensures (|r| == 1) <==> c < 0x80
  {
    if c < 0x80 then [c]
    else if c < 0x800 then [0xC0 + c / 64, 0x80 + c % 64]
    else if c < 0x1_0000 then [0xE0 + c / 4096, 0x80 + (c / 64) % 64, 0x80 + c % 64]
    else [0xF0 + c / 262144, 0x80 + (c / 4096) % 64, 0x80 + (c / 64) % 64, 0x80 + c % 64]
  }

  function Encode(t: Text): (r: seq<Byte>)
    ensures |r| >= |t|
  {
    if t == [] then [] else EncodeCodePoint(t[0]) + Encode(t[1..])
  }

  /** How many bytes the shortest form of c takes. */
  function Width(c: CodePoint): nat
  {
    if c < 0x80 then 1 else if c < 0x800 then 2 else if c < 0x1_0000 then 3 else 4
  }

  /** The length of Encode(t), counted code point by code point. */
  function EncodedLength(t: Text): nat
  {
    if t == [] then 0 else Width(t[0]) + EncodedLength(t[1..])
  }

  lemma {:induction false} EncodedLengthIsLength(t: Text)
    ensures |Encode(t)| == EncodedLength(t)
  {
    if t != [] {
      EncodedLengthIsLength(t[1..]);
    }
  }

  predicate IsContinuation(b: Byte)
  {
    0x80 <= b < 0xC0
  }

  /**
   * Decodes the character at the front of s: its code point and how many
   * bytes it took. Overlong forms, surrogates and values above U+10FFFF are
   * rejected, and a rejected byte yields one U+FFFD.
   */
  function DecodeOne(s: seq<Byte>): (r: (CodePoint, nat))
    requires |s| >= 1
    ensures 1 <= r.1 <= |s|
  {
    var b0: int := s[0];
    if b0 < 0x80 then (b0, 1)
    else if 0xC2 <= b0 < 0xE0 && |s| >= 2 && IsContinuation(s[1]) then
      ((b0 - 0xC0) * 64 + (s[1] as int - 0x80), 2)
    else if 0xE0 <= b0 < 0xF0 && |s| >= 3 && IsContinuation(s[1]) && IsContinuation(s[2]) then
      var v := (b0 - 0xE0) * 4096 + (s[1] as int - 0x80) * 64 + (s[2] as int - 0x80);
      if 0x800 <= v && !(0xD800 <= v < 0xE000) then (v, 3) else (REPLACEMENT, 1)
    else if 0xF0 <= b0 < 0xF5 && |s| >= 4 && IsContinuation(s[1]) && IsContinuation(s[2])
      && IsContinuation(s[3]) then
      var v := (b0 - 0xF0) * 262144 + (s[1] as int - 0x80) * 4096 + (s[2] as int - 0x80) * 64
        + (s[3] as int - 0x80);
      if 0x1_0000 <= v < 0x11_0000 then (v, 4) else (REPLACEMENT, 1)
    else (REPLACEMENT, 1)
  }

  function Decode(s: seq<Byte>): (t: Text)
    ensures |t| <= |s|
    decreases |s|
  {
    if s == [] then []
    else
      var (c, n) := DecodeOne(s);
      [c] + Decode(s[n..])
  }

  lemma DecodeOneEncoded(c: CodePoint, rest: seq<Byte>)
    ensures DecodeOne(EncodeCodePoint(c) + rest) == (c, |EncodeCodePoint(c)|)
  {
    if c < 0x80 {
    } else if c < 0x800 {
      DecodeTwo(c, EncodeCodePoint(c) + rest);
    } else if c < 0x1_0000 {
      DecodeThree(c, EncodeCodePoint(c) + rest);
    } else {
      DecodeFour(c, EncodeCodePoint(c) + rest);
    }
  }

  lemma DecodeTwo(c: CodePoint, s: seq<Byte>)
    requires 0x80 <= c < 0x800 && |s| >= 2
    requires s[0] == 0xC0 + c / 64 && s[1] == 0x80 + c % 64
    ensures DecodeOne(s) == (c, 2)
  {
    assert c == 64 * (c / 64) + c % 64;
  }

  lemma DecodeThree(c: CodePoint, s: seq<Byte>)
    requires 0x800 <= c < 0x1_0000 && |s| >= 3
    requires s[0] == 0xE0 + c / 4096 && s[1] == 0x80 + (c / 64) % 64 && s[2] == 0x80 + c % 64
    ensures DecodeOne(s) == (c, 3)
  {
    var hi, mid, lo := c / 4096, (c / 64) % 64, c % 64;
    assert c / 64 == 64 * hi + mid;
    assert c == 4096 * hi + 64 * mid + lo;
  }

  lemma DecodeFour(c: CodePoint, s: seq<Byte>)
    requires 0x1_0000 <= c && |s| >= 4
    requires s[0] == 0xF0 + c / 262144 && s[1] == 0x80 + (c / 4096) % 64
    requires s[2] == 0x80 + (c / 64) % 64 && s[3] == 0x80 + c % 64
    ensures DecodeOne(s) == (c, 4)
  {
    var top, hi, mid, lo := c / 262144, (c / 4096) % 64, (c / 64) % 64, c % 64;
    assert c / 4096 == 64 * top + hi;
    assert c / 64 == 64 * (c / 4096) + mid;
    assert c == 262144 * top + 4096 * hi + 64 * mid + lo;
  }

  /** Decoding the encoding of any text gives the text back. */
  lemma {:induction false} DecodeEncode(t: Text)
    ensures Decode(Encode(t)) == t
  {
    if t != [] {
      var e := EncodeCodePoint(t[0]);
      var s := Encode(t);
      assert s == e + Encode(t[1..]);
      DecodeOneEncoded(t[0], Encode(t[1..]));
      assert s[|e|..] == Encode(t[1..]);
      DecodeEncode(t[1..]);
    }
  }

  /** Different texts have different encodings. */
  lemma EncodeInjective(t1: Text, t2: Text)
    requires Encode(t1) == Encode(t2)
    ensures t1 == t2
  {
    DecodeEncode(t1);
    DecodeEncode(t2);
  }
}
