// What the wire format guarantees: every value read back with the kinds it
// was written with is the value written, with its NaNs canonical, whatever
// follows it in the stream; and what is written depends on a value only up to
// the payloads of its NaNs.

module WireLaws {
  import opened Wrappers
  import opened Bytes
  import opened Wire
  import Utf8
  import TwosComplement

  /** s holds w at position p. */
  predicate At(s: seq<Byte>, p: nat, w: seq<Byte>)
  {
    p + |w| <= |s| && s[p..p + |w|] == w
  }

  lemma AtSplit(s: seq<Byte>, p: nat, a: seq<Byte>, b: seq<Byte>)
    requires At(s, p, a + b)
    ensures At(s, p, a) && At(s, p + |a|, b)
  {
    assert s[p..p + |a|] == s[p..p + |a + b|][..|a|];
    assert s[p + |a|..p + |a| + |b|] == s[p..p + |a + b|][|a|..];
  }

  lemma IntRoundTrip(x: Int32, s: seq<Byte>, p: nat)
    requires At(s, p, EncodeInt(x))
    ensures IntAt(s, p) == x
  {
    Pow256Values();
    SignedRoundTrip(x, 4);
  }

  lemma LongRoundTrip(x: Int64, s: seq<Byte>, p: nat)
    requires At(s, p, EncodeLong(x))
    ensures LongAt(s, p) == x
  {
    Pow256Values();
    SignedRoundTrip(x, 8);
  }

  lemma ShortRoundTrip(x: Int16, s: seq<Byte>, p: nat)
    requires At(s, p, EncodeShort(x))
    ensures ShortAt(s, p) == x
  {
    Pow256Values();
    SignedRoundTrip(x, 2);
  }

  lemma ByteRoundTrip(x: Int8, s: seq<Byte>, p: nat)
    requires At(s, p, EncodeByte(x))
    ensures ByteAt(s, p) == x
  {
    Pow256Values();
    SignedRoundTrip(x, 1);
  }

  lemma CharRoundTrip(c: Char16, s: seq<Byte>, p: nat)
    requires At(s, p, EncodeChar(c))
    ensures CharAt(s, p) == c
  {
    Pow256Values();
    FromToBigEndian(c, 2);
  }

  /** An int field written at p reads back as the same int, four bytes on. */
  lemma IntField(x: Int32, s: seq<Byte>, p: nat)
    requires At(s, p, EncodeInt(x))
    ensures Decode(IntK, s, p) == Got(IntV(x), p + 4)
  {
    IntRoundTrip(x, s, p);
  }

  /** A long field written at p reads back as the same long, eight bytes on. */
  lemma LongField(x: Int64, s: seq<Byte>, p: nat)
    requires At(s, p, EncodeLong(x))
    ensures Decode(LongK, s, p) == Got(LongV(x), p + 8)
  {
    LongRoundTrip(x, s, p);
  }

  /** A presence flag written at p reads back as the same flag, one byte on. */
  lemma BooleanField(b: bool, s: seq<Byte>, p: nat)
    requires At(s, p, EncodeBoolean(b))
    ensures Decode(BooleanK, s, p) == Got(BooleanV(b), p + 1)
  {
  }

  /** Every four bytes in the stream are the encoding of the int read from them. */
  lemma IntReencode(s: seq<Byte>, p: nat)
    requires p + 4 <= |s|
    ensures EncodeInt(IntAt(s, p)) == s[p..p + 4]
  {
    Pow256Values();
    SignedReencode(s[p..p + 4]);
  }

  /** A boolean byte other than 0 or 1 reads as true but is not what writing true produces. */
  lemma BooleanNotCanonical()
    ensures BooleanAt([2], 0) && EncodeBoolean(true) != [2]
  {
  }

  /** Reading with the kind a value was written with gives it back, with its
      NaNs canonical, whatever follows it. */
  lemma {:induction false} RoundTrip(k: Kind, v: Value, s: seq<Byte>, p: nat)
    requires Conforms(v, k) && At(s, p, Encode(k, v))
    ensures Decode(k, s, p) == Got(Canon(v), p + |Encode(k, v)|)
    decreases KindSize(k), 0, 2
  {
    match k
    case NestedK(fs) => NestedRoundTrip(fs, v, s, p);
    case ListK(e) => ListRoundTrip(e, v, s, p);
    case MapK(a, b) => MapRoundTrip(a, b, v, s, p);
    case _ => LeafRoundTrip(k, v, s, p);
  }

  /** The kinds that hold no other value: primitives, strings, decimals and dates. */
  lemma LeafRoundTrip(k: Kind, v: Value, s: seq<Byte>, p: nat)
    requires !k.NestedK? && !k.ListK? && !k.MapK?
    requires Conforms(v, k) && At(s, p, Encode(k, v))
    ensures Decode(k, s, p) == Got(Canon(v), p + |Encode(k, v)|)
  {
    match k
    case StringK =>
      assert Encode(StringK, v) == EncodeString(v);
      StringRoundTrip(v, s, p);
    case DecimalK =>
      assert Encode(DecimalK, v) == EncodeDecimal(v);
      DecimalRoundTrip(v, s, p);
    case DateK =>
      assert Encode(DateK, v) == EncodeDate(v);
      DateRoundTrip(v, s, p);
    case _ => ScalarRoundTrip(k, v, s, p);
  }

  lemma ScalarRoundTrip(k: Kind, v: Value, s: seq<Byte>, p: nat)
    requires !IsReference(k) && Conforms(v, k) && At(s, p, Encode(k, v))
    ensures Decode(k, s, p) == Got(Canon(v), p + |Encode(k, v)|)
  {
    match k
    case IntK => IntRoundTrip(v.i, s, p);
    case LongK => LongRoundTrip(v.l, s, p);
    case FloatK => IntRoundTrip(FloatToIntBits(v.fbits), s, p);
    case DoubleK => LongRoundTrip(DoubleToLongBits(v.dbits), s, p);
    case BooleanK =>
    case ByteK => ByteRoundTrip(v.octet, s, p);
    case ShortK => ShortRoundTrip(v.sh, s, p);
    case CharK => CharRoundTrip(v.ch, s, p);
  }

  lemma StringRoundTrip(v: Value, s: seq<Byte>, p: nat)
    requires (v.Null? || IsWritableString(v)) && At(s, p, EncodeString(v))
    ensures DecodeString(s, p) == Got(v, p + |EncodeString(v)|)
  {
    if v.Null? {
      IntField(-1, s, p);
    } else {
      Utf8.EncodedLengthIsLength(v.text);
      var u := Utf8.Encode(v.text);
      StringAt(u, s, p);
      Utf8.DecodeEncode(v.text);
    }
  }

  /** A length prefix followed by that many bytes reads back as the UTF-8
      decoding of those bytes. */
  lemma StringAt(u: seq<Byte>, s: seq<Byte>, p: nat)
    requires |u| < INT_LIMIT && At(s, p, EncodeInt(|u|) + u)
    ensures p + 4 + |u| <= |s| && s[p + 4..p + 4 + |u|] == u
    ensures DecodeString(s, p) == Got(StringV(Utf8.Decode(s[p + 4..p + 4 + |u|])), p + 4 + |u|)
  {
    AtSplit(s, p, EncodeInt(|u|), u);
    IntField(|u|, s, p);
  }

  lemma DecimalRoundTrip(v: Value, s: seq<Byte>, p: nat)
    requires (v.Null? || IsWritableDecimal(v)) && At(s, p, EncodeDecimal(v))
    ensures DecodeDecimal(s, p) == Got(v, p + |EncodeDecimal(v)|)
  {
    if v.Null? {
      BooleanField(false, s, p);
    } else {
      var m := TwosComplement.ToByteArray(v.dec.unscaled);
      DecimalLayout(v, s, p);
      TwosComplement.ByteArrayRoundTrip(v.dec.unscaled);
      DecimalAt(v.dec.unscaled, v.dec.scale, m, s, p);
    }
  }

  /** Where the four parts of a written decimal lie. */
  lemma DecimalLayout(v: Value, s: seq<Byte>, p: nat)
    requires IsWritableDecimal(v) && At(s, p, EncodeDecimal(v))
    ensures var m := TwosComplement.ToByteArray(v.dec.unscaled);
      && |EncodeDecimal(v)| == 9 + |m|
      && At(s, p, EncodeBoolean(true)) && At(s, p + 1, EncodeInt(v.dec.scale))
      && At(s, p + 5, EncodeInt(|m|)) && At(s, p + 9, m)
  {
    var m := TwosComplement.ToByteArray(v.dec.unscaled);
    var flag, scale, len := EncodeBoolean(true), EncodeInt(v.dec.scale), EncodeInt(|m|);
    assert EncodeDecimal(v) == flag + scale + len + m;
    AtSplit(s, p, flag + scale + len, m);
    AtSplit(s, p, flag + scale, len);
    AtSplit(s, p, flag, scale);
  }

  /** Flag, scale, a positive magnitude length and that many bytes holding x in
      two's complement read back as the decimal with unscaled value x. */
  lemma DecimalAt(x: int, scale: Int32, m: seq<Byte>, s: seq<Byte>, p: nat)
    requires 0 < |m| < INT_LIMIT && DecodeSigned(m) == x
    requires At(s, p, EncodeBoolean(true)) && At(s, p + 1, EncodeInt(scale))
    requires At(s, p + 5, EncodeInt(|m|)) && At(s, p + 9, m)
    ensures DecodeDecimal(s, p) == Got(DecimalV(Decimal(x, scale)), p + 9 + |m|)
  {
    BooleanField(true, s, p);
    IntField(scale, s, p + 1);
    IntField(|m|, s, p + 5);
  }

  lemma DateRoundTrip(v: Value, s: seq<Byte>, p: nat)
    requires (v.Null? || v.DateV?) && At(s, p, EncodeDate(v))
    ensures DecodeDate(s, p) == Got(v, p + |EncodeDate(v)|)
  {
    if v.Null? {
      BooleanField(false, s, p);
    } else {
      var flag := EncodeBoolean(true);
      assert EncodeDate(v) == flag + EncodeLong(v.day);
      AtSplit(s, p, flag, EncodeLong(v.day));
      BooleanField(true, s, p);
      LongField(v.day, s, p + 1);
    }
  }

  lemma {:induction false} NestedRoundTrip(fs: seq<Kind>, v: Value, s: seq<Byte>, p: nat)
    requires Conforms(v, NestedK(fs)) && At(s, p, Encode(NestedK(fs), v))
    ensures Decode(NestedK(fs), s, p) == Got(Canon(v), p + |Encode(NestedK(fs), v)|)
    decreases KindSize(NestedK(fs)), 0, 1
  {
    if v.Null? {
      BooleanField(false, s, p);
    } else {
      var flag := EncodeBoolean(true);
      assert Encode(NestedK(fs), v) == flag + EncodeFields(fs, v.fields);
      AtSplit(s, p, flag, EncodeFields(fs, v.fields));
      BooleanField(true, s, p);
      RoundTripFields(fs, v.fields, s, p + 1);
    }
  }

  lemma {:induction false} ListRoundTrip(e: Kind, v: Value, s: seq<Byte>, p: nat)
    requires Conforms(v, ListK(e)) && At(s, p, Encode(ListK(e), v))
    ensures Decode(ListK(e), s, p) == Got(Canon(v), p + |Encode(ListK(e), v)|)
    decreases KindSize(ListK(e)), 0, 1
  {
    if v.Null? {
      assert Encode(ListK(e), v) == EncodeInt(-1);
      IntField(-1, s, p);
    } else {
      assert Encode(ListK(e), v) == EncodeInt(|v.elems|) + EncodeElems(e, v.elems);
      DecodeListAt(e, v.elems, s, p);
      assert Decode(ListK(e), s, p) == DecodeList(e, s, p);
    }
  }

  /** readList over a size and the elements writeList put after it. */
  lemma {:induction false} DecodeListAt(e: Kind, vs: seq<Value>, s: seq<Byte>, p: nat)
    requires |vs| < INT_LIMIT && ElemsConform(vs, e)
    requires At(s, p, EncodeInt(|vs|) + EncodeElems(e, vs))
    ensures DecodeList(e, s, p) == Got(ListV(CanonAll(vs)), p + 4 + |EncodeElems(e, vs)|)
    decreases KindSize(e), 1, |vs| + 1
  {
    AtSplit(s, p, EncodeInt(|vs|), EncodeElems(e, vs));
    IntField(|vs|, s, p);
    RoundTripElems(e, vs, s, p + 4);
  }

  lemma {:induction false} MapRoundTrip(a: Kind, b: Kind, v: Value, s: seq<Byte>, p: nat)
    requires Conforms(v, MapK(a, b)) && At(s, p, Encode(MapK(a, b), v))
    ensures Decode(MapK(a, b), s, p) == Got(Canon(v), p + |Encode(MapK(a, b), v)|)
    decreases KindSize(MapK(a, b)), 0, 1
  {
    if v.Null? {
      assert Encode(MapK(a, b), v) == EncodeInt(-1);
      IntField(-1, s, p);
    } else {
      assert Encode(MapK(a, b), v) == EncodeInt(|v.entries|) + EncodeEntries(a, b, v.entries);
      DecodeMapAt(a, b, v.entries, s, p);
      assert Decode(MapK(a, b), s, p) == DecodeMap(a, b, s, p);
    }
  }

  /** readMap over a size and the entries writeMap put after it. */
  lemma {:induction false} DecodeMapAt(a: Kind, b: Kind, es: seq<Entry>, s: seq<Byte>, p: nat)
    requires |es| < INT_LIMIT && EntriesConform(es, a, b)
    requires At(s, p, EncodeInt(|es|) + EncodeEntries(a, b, es))
    ensures DecodeMap(a, b, s, p) == Got(MapV(CanonEntries(es)), p + 4 + |EncodeEntries(a, b, es)|)
    decreases KindSize(MapK(a, b)), 0, 0, |es| + 2
  {
    AtSplit(s, p, EncodeInt(|es|), EncodeEntries(a, b, es));
    IntField(|es|, s, p);
    RoundTripEntries(a, b, es, s, p + 4);
  }

  /** The fields of a nested object read back in order: a read that mirrors its write. */
  lemma {:induction false} RoundTripFields(ks: seq<Kind>, vs: seq<Value>, s: seq<Byte>, p: nat)
    requires ConformsAll(vs, ks) && At(s, p, EncodeFields(ks, vs))
    ensures DecodeFields(ks, s, p) == GotSeq(CanonAll(vs), p + |EncodeFields(ks, vs)|)
    decreases KindsSize(ks), 1, 0
  {
    if ks != [] {
      var head := Encode(ks[0], vs[0]);
      AtSplit(s, p, head, EncodeFields(ks[1..], vs[1..]));
      RoundTrip(ks[0], vs[0], s, p);
      RoundTripFields(ks[1..], vs[1..], s, p + |head|);
      DecodeFieldsCons(ks, s, p, Canon(vs[0]), p + |head|, CanonAll(vs[1..]), p + |head| + |EncodeFields(ks[1..], vs[1..])|);
    }
  }

  lemma {:induction false} RoundTripElems(e: Kind, vs: seq<Value>, s: seq<Byte>, p: nat)
    requires ElemsConform(vs, e) && At(s, p, EncodeElems(e, vs))
    ensures DecodeElems(e, |vs|, s, p) == GotSeq(CanonAll(vs), p + |EncodeElems(e, vs)|)
    decreases KindSize(e), 1, |vs|, 1
  {
    if vs != [] {
      var q := RoundTripHead(e, vs, s, p);
      RoundTripElems(e, vs[1..], s, q);
      DecodeElemsStep(e, vs, s, p, q, q + |EncodeElems(e, vs[1..])|);
    }
  }

  /** The first element of a written list reads back, and the rest of the
      elements follow it. */
  lemma {:induction false} RoundTripHead(e: Kind, vs: seq<Value>, s: seq<Byte>, p: nat) returns (q: nat)
    requires vs != [] && ElemsConform(vs, e) && At(s, p, EncodeElems(e, vs))
    ensures Decode(e, s, p) == Got(Canon(vs[0]), q)
    ensures ElemsConform(vs[1..], e) && At(s, q, EncodeElems(e, vs[1..]))
    ensures q + |EncodeElems(e, vs[1..])| == p + |EncodeElems(e, vs)|
    decreases KindSize(e), 1, |vs|, 0
  {
    q := ElemsSplit(e, vs, s, p);
    RoundTrip(e, vs[0], s, p);
  }

  /** A written list's first element is in place at p, and the rest of the
      elements are in place right after it, at q. */
  lemma ElemsSplit(e: Kind, vs: seq<Value>, s: seq<Byte>, p: nat) returns (q: nat)
    requires vs != [] && ElemsConform(vs, e) && At(s, p, EncodeElems(e, vs))
    ensures Conforms(vs[0], e) && At(s, p, Encode(e, vs[0])) && q == p + |Encode(e, vs[0])|
    ensures ElemsConform(vs[1..], e) && At(s, q, EncodeElems(e, vs[1..]))
    ensures q + |EncodeElems(e, vs[1..])| == p + |EncodeElems(e, vs)|
  {
    EncodeElemsCons(e, vs);
    var head, rest := Encode(e, vs[0]), EncodeElems(e, vs[1..]);
    q := p + |head|;
    AtSplit(s, p, head, rest);
  }

  lemma {:induction false} RoundTripEntry(a: Kind, b: Kind, e: Entry, s: seq<Byte>, p: nat)
    requires Conforms(e.key, a) && Conforms(e.value, b) && At(s, p, EncodeEntry(a, b, e))
    ensures DecodeEntry(a, b, s, p) == GotEntry(Canon(e.key), Canon(e.value), p + |EncodeEntry(a, b, e)|)
    decreases KindSize(MapK(a, b)), 0, 0, 0
  {
    EntryAsFields(a, b, e);
    RoundTripFields([a, b], [e.key, e.value], s, p);
    assert CanonAll([e.key, e.value]) == [Canon(e.key), Canon(e.value)] by {
      assert [e.key, e.value][1..] == [e.value] && [e.value][1..] == [];
    }
    DecodeEntryAsFields(a, b, s, p, Canon(e.key), Canon(e.value), p + |EncodeEntry(a, b, e)|);
  }

  lemma {:induction false} RoundTripEntries(a: Kind, b: Kind, es: seq<Entry>, s: seq<Byte>, p: nat)
    requires EntriesConform(es, a, b) && At(s, p, EncodeEntries(a, b, es))
    ensures DecodeEntries(a, b, |es|, s, p) == GotEntries(CanonEntries(es), p + |EncodeEntries(a, b, es)|)
    decreases KindSize(MapK(a, b)), 0, 0, |es| + 1
  {
    if es != [] {
      var q := RoundTripEntriesHead(a, b, es, s, p);
      RoundTripEntries(a, b, es[1..], s, q);
      DecodeEntriesStep(a, b, es, s, p, q, q + |EncodeEntries(a, b, es[1..])|);
    }
  }

  /** The first entry of a written map reads back, and the rest of the entries
      follow it. */
  lemma {:induction false} RoundTripEntriesHead(a: Kind, b: Kind, es: seq<Entry>, s: seq<Byte>, p: nat) returns (q: nat)
    requires es != [] && EntriesConform(es, a, b) && At(s, p, EncodeEntries(a, b, es))
    ensures DecodeEntry(a, b, s, p) == GotEntry(Canon(es[0].key), Canon(es[0].value), q)
    ensures EntriesConform(es[1..], a, b) && At(s, q, EncodeEntries(a, b, es[1..]))
    ensures q + |EncodeEntries(a, b, es[1..])| == p + |EncodeEntries(a, b, es)|
    decreases KindSize(MapK(a, b)), 0, 0, |es|
  {
    q := EntriesSplit(a, b, es, s, p);
    RoundTripEntry(a, b, es[0], s, p);
  }

  /** A written map's first entry is in place at p, and the rest of the entries
      are in place right after it, at q. */
  lemma EntriesSplit(a: Kind, b: Kind, es: seq<Entry>, s: seq<Byte>, p: nat) returns (q: nat)
    requires es != [] && EntriesConform(es, a, b) && At(s, p, EncodeEntries(a, b, es))
    ensures Conforms(es[0].key, a) && Conforms(es[0].value, b)
    ensures At(s, p, EncodeEntry(a, b, es[0])) && q == p + |EncodeEntry(a, b, es[0])|
    ensures EntriesConform(es[1..], a, b) && At(s, q, EncodeEntries(a, b, es[1..]))
    ensures q + |EncodeEntries(a, b, es[1..])| == p + |EncodeEntries(a, b, es)|
  {
    var entry, rest := EncodeEntry(a, b, es[0]), EncodeEntries(a, b, es[1..]);
    assert EncodeEntries(a, b, es) == entry + rest;
    q := p + |entry|;
    AtSplit(s, p, entry, rest);
  }

  /** One pass of readMap's loop, with the entry and the rest read already. */
  lemma DecodeEntriesStep(a: Kind, b: Kind, es: seq<Entry>, s: seq<Byte>, p: nat, q: nat, q1: nat)
    requires es != [] && DecodeEntry(a, b, s, p) == GotEntry(Canon(es[0].key), Canon(es[0].value), q)
    requires DecodeEntries(a, b, |es[1..]|, s, q) == GotEntries(CanonEntries(es[1..]), q1)
    ensures DecodeEntries(a, b, |es|, s, p) == GotEntries(CanonEntries(es), q1)
  {
  }

  // One step of each reading loop, stated apart from any bytes so that the
  // round-trip proofs need not unfold the readers themselves.

  lemma DecodeFieldsCons(ks: seq<Kind>, s: seq<Byte>, p: nat, v: Value, q: nat, vs: seq<Value>, q1: nat)
    requires ks != [] && Decode(ks[0], s, p) == Got(v, q) && DecodeFields(ks[1..], s, q) == GotSeq(vs, q1)
    ensures DecodeFields(ks, s, p) == GotSeq([v] + vs, q1)
  {
  }

  /** The first element is written first, then the rest. */
  lemma EncodeElemsCons(e: Kind, vs: seq<Value>)
    requires vs != [] && ElemsConform(vs, e)
    ensures Conforms(vs[0], e) && ElemsConform(vs[1..], e)
    ensures EncodeElems(e, vs) == Encode(e, vs[0]) + EncodeElems(e, vs[1..])
  {
  }

  /** One pass of readList's loop, with the element and the rest read already. */
  lemma DecodeElemsStep(e: Kind, vs: seq<Value>, s: seq<Byte>, p: nat, q: nat, q1: nat)
    requires vs != [] && Decode(e, s, p) == Got(Canon(vs[0]), q)
    requires DecodeElems(e, |vs[1..]|, s, q) == GotSeq(CanonAll(vs[1..]), q1)
    ensures DecodeElems(e, |vs|, s, p) == GotSeq(CanonAll(vs), q1)
  {
    DecodeElemsCons(e, |vs|, s, p, Canon(vs[0]), q, CanonAll(vs[1..]), q1);
  }

  lemma DecodeElemsCons(e: Kind, n: nat, s: seq<Byte>, p: nat, v: Value, q: nat, vs: seq<Value>, q1: nat)
    requires n > 0 && Decode(e, s, p) == Got(v, q) && DecodeElems(e, n - 1, s, q) == GotSeq(vs, q1)
    ensures DecodeElems(e, n, s, p) == GotSeq([v] + vs, q1)
  {
  }

  /** An entry is written as the two fields key and value. */
  lemma EntryAsFields(a: Kind, b: Kind, e: Entry)
    requires Conforms(e.key, a) && Conforms(e.value, b)
    ensures ConformsAll([e.key, e.value], [a, b]) && KindsSize([a, b]) < KindSize(MapK(a, b))
    ensures EncodeFields([a, b], [e.key, e.value]) == EncodeEntry(a, b, e)
  {
    var ks, vs := [a, b], [e.key, e.value];
    assert ks[0] == a && ks[1..] == [b] && vs[0] == e.key && vs[1..] == [e.value];
    OneField(b, e.value);
    assert KindsSize(ks) == KindSize(a) + KindsSize([b]);
    assert EncodeFields(ks, vs) == Encode(a, e.key) + EncodeFields([b], [e.value]);
  }

  lemma OneField(k: Kind, v: Value)
    requires Conforms(v, k)
    ensures ConformsAll([v], [k]) && KindsSize([k]) == KindSize(k) && EncodeFields([k], [v]) == Encode(k, v)
  {
    assert [k][1..] == [] && [v][1..] == [];
  }

  /** An entry is read as the two fields key and value. */
  lemma DecodeEntryAsFields(a: Kind, b: Kind, s: seq<Byte>, p: nat, k: Value, v: Value, q: nat)
    requires DecodeFields([a, b], s, p) == GotSeq([k, v], q)
    ensures DecodeEntry(a, b, s, p) == GotEntry(k, v, q)
  {
    var ks := [a, b];
    assert ks[1..] == [b] && [b][1..] == [];
    var d := Decode(a, s, p);
    assert d.Got?;
    var rest := DecodeFields([b], s, d.next);
    assert rest.GotSeq? && DecodeFields(ks, s, p) == GotSeq([d.value] + rest.values, rest.next);
    var d2 := Decode(b, s, d.next);
    assert d2.Got?;
    assert DecodeFields([], s, d2.next) == GotSeq([], d2.next);
    assert rest == GotSeq([d2.value] + [], d2.next);
    var vals := [d.value] + ([d2.value] + []);
    assert vals == [k, v];
    assert vals[0] == k && vals[1] == v;
  }
  // ---------------------------------------------------------------------------
  // NaN canonicalisation

  /** floatToIntBits keeps every bit pattern that is not a NaN, sends every NaN
      to one NaN, and so is idempotent; likewise doubleToLongBits. */
  lemma CanonicalNaNs(x: Int32, y: Int64)
    ensures IsFloatNaN(CANONICAL_FLOAT_NAN) && IsDoubleNaN(CANONICAL_DOUBLE_NAN)
    ensures IsFloatNaN(FloatToIntBits(x)) <==> IsFloatNaN(x)
    ensures !IsFloatNaN(x) ==> FloatToIntBits(x) == x
    ensures FloatToIntBits(FloatToIntBits(x)) == FloatToIntBits(x)
    ensures IsDoubleNaN(DoubleToLongBits(y)) <==> IsDoubleNaN(y)
    ensures !IsDoubleNaN(y) ==> DoubleToLongBits(y) == y
    ensures DoubleToLongBits(DoubleToLongBits(y)) == DoubleToLongBits(y)
  {
  }

  /** A quiet NaN with payload 1 is read with its payload, and written back as
      the canonical NaN 7F C0 00 00. */
  lemma NaNPayloadExample()
    ensures Decode(FloatK, [0x7F, 0xC0, 0x00, 0x01], 0) == Got(FloatV(0x7FC0_0001), 4)
    ensures Encode(FloatK, FloatV(0x7FC0_0001)) == [0x7F, 0xC0, 0x00, 0x00]
  {
    var b: seq<Byte> := [0x7F, 0xC0, 0x00, 0x01];
    Pow256Values();
    var b1, b2, b3 := b[..1], b[..2], b[..3];
    assert b1[..0] == [] && b2[..1] == b1 && b3[..2] == b2 && b[..3] == b3 && b[0..4] == b;
    assert FromBigEndian(b1) == 0x7F;
    assert FromBigEndian(b2) == 0x7FC0;
    assert FromBigEndian(b3) == 0x7F_C000;
    assert FromBigEndian(b) == 0x7FC0_0001;
  }

  /** Values with the same canonical form are written as the same bytes: what
      write() appends depends on the fields only up to their NaN payloads. */
  lemma {:induction false} EncodeSameCanon(k: Kind, v1: Value, v2: Value)
    requires Conforms(v1, k) && Conforms(v2, k) && Canon(v1) == Canon(v2)
    ensures Encode(k, v1) == Encode(k, v2)
    decreases KindSize(k), 0
  {
    match k
    case NestedK(fs) =>
      if !v1.Null? {
        FieldsSameCanon(fs, v1.fields, v2.fields);
      }
    case ListK(e) =>
      if !v1.Null? {
        ElemsSameCanon(e, v1.elems, v2.elems);
      }
    case MapK(a, b) =>
      if !v1.Null? {
        EntriesSameCanon(a, b, v1.entries, v2.entries);
      }
    case StringK => LeafSameCanon(k, v1, v2);
    case DecimalK => LeafSameCanon(k, v1, v2);
    case DateK => LeafSameCanon(k, v1, v2);
    case _ => ScalarSameCanon(k, v1, v2);
  }

  /** Strings, decimals and dates hold no NaN: the same canonical form is the same value. */
  lemma LeafSameCanon(k: Kind, v1: Value, v2: Value)
    requires k.StringK? || k.DecimalK? || k.DateK?
    requires Conforms(v1, k) && Conforms(v2, k) && Canon(v1) == Canon(v2)
    ensures v1 == v2
  {
  }

  lemma ScalarSameCanon(k: Kind, v1: Value, v2: Value)
    requires !IsReference(k) && Conforms(v1, k) && Conforms(v2, k) && Canon(v1) == Canon(v2)
    ensures Encode(k, v1) == Encode(k, v2)
  {
    assert Encode(k, v1) == EncodeScalar(v1) && Encode(k, v2) == EncodeScalar(v2);
  }

  lemma {:induction false} FieldsSameCanon(ks: seq<Kind>, vs1: seq<Value>, vs2: seq<Value>)
    requires ConformsAll(vs1, ks) && ConformsAll(vs2, ks) && CanonAll(vs1) == CanonAll(vs2)
    ensures EncodeFields(ks, vs1) == EncodeFields(ks, vs2)
    decreases KindsSize(ks), 1
  {
    if ks != [] {
      CanonAllCons(vs1, vs2);
      EncodeSameCanon(ks[0], vs1[0], vs2[0]);
      FieldsSameCanon(ks[1..], vs1[1..], vs2[1..]);
    }
  }

  lemma {:induction false} ElemsSameCanon(e: Kind, vs1: seq<Value>, vs2: seq<Value>)
    requires ElemsConform(vs1, e) && ElemsConform(vs2, e) && CanonAll(vs1) == CanonAll(vs2)
    ensures EncodeElems(e, vs1) == EncodeElems(e, vs2)
    decreases KindSize(e), 1, |vs1|
  {
    if vs1 != [] {
      CanonAllCons(vs1, vs2);
      EncodeSameCanon(e, vs1[0], vs2[0]);
      ElemsSameCanon(e, vs1[1..], vs2[1..]);
    }
  }

  lemma {:induction false} EntriesSameCanon(a: Kind, b: Kind, es1: seq<Entry>, es2: seq<Entry>)
    requires EntriesConform(es1, a, b) && EntriesConform(es2, a, b) && CanonEntries(es1) == CanonEntries(es2)
    ensures EncodeEntries(a, b, es1) == EncodeEntries(a, b, es2)
    decreases KindSize(a) + KindSize(b), 1, |es1|
  {
    if es1 != [] {
      CanonEntriesCons(es1, es2);
      EncodeSameCanon(a, es1[0].key, es2[0].key);
      EncodeSameCanon(b, es1[0].value, es2[0].value);
      EntriesSameCanon(a, b, es1[1..], es2[1..]);
    }
  }

  /** Equal canonical forms of two non-empty runs agree at the head and on the rest. */
  lemma CanonAllCons(vs1: seq<Value>, vs2: seq<Value>)
    requires vs1 != [] && CanonAll(vs1) == CanonAll(vs2)
    ensures vs2 != [] && Canon(vs1[0]) == Canon(vs2[0]) && CanonAll(vs1[1..]) == CanonAll(vs2[1..])
  {
    var c := CanonAll(vs1);
    assert c[0] == Canon(vs1[0]) && c[1..] == CanonAll(vs1[1..]);
    assert c[0] == Canon(vs2[0]) && c[1..] == CanonAll(vs2[1..]);
  }

  lemma CanonEntriesCons(es1: seq<Entry>, es2: seq<Entry>)
    requires es1 != [] && CanonEntries(es1) == CanonEntries(es2)
    ensures es2 != [] && Canon(es1[0].key) == Canon(es2[0].key) && Canon(es1[0].value) == Canon(es2[0].value)
    ensures CanonEntries(es1[1..]) == CanonEntries(es2[1..])
  {
    var c := CanonEntries(es1);
    assert c[0] == CanonEntry(es1[0]) && c[1..] == CanonEntries(es1[1..]);
    assert c[0] == CanonEntry(es2[0]) && c[1..] == CanonEntries(es2[1..]);
  }
}
