// The Dormant envelope: a top-level object travels as the magic number, its
// type id and then its own fields. The type id is the class name's
// String.hashCode; AbstractDormant compares and hashes objects by these bytes.

module Dormants {
  import opened Wrappers
  import opened Bytes
  import opened Wire
  import opened WireLaws
  import opened Sessions

  /** BinarySerde.MAGIC_NUMBER: 0xD0BACAFE read as a signed int. */
  const MAGIC: Int32 := -0x2F45_3502

  /** The magic number goes out as the bytes D0 BA CA FE, most significant first. */
  lemma MagicBytes()
    ensures EncodeInt(MAGIC) == [0xD0, 0xBA, 0xCA, 0xFE]
  {
    Pow256Values();
    assert ToUnsigned(MAGIC, 4) == 0xD0BA_CAFE;
    assert ToBigEndian(0xD0, 1) == [0xD0];
    assert ToBigEndian(0xD0BA, 2) == [0xD0, 0xBA];
    assert ToBigEndian(0xD0BA_CA, 3) == [0xD0, 0xBA, 0xCA];
    assert ToBigEndian(0xD0BA_CAFE, 4) == [0xD0, 0xBA, 0xCA, 0xFE];
  }

  // ---------------------------------------------------------------------------
  // Java hash codes

  /** A Java String as its UTF-16 code units. */
  type JavaString = seq<Char16>

  function Pow31(n: nat): (r: nat)
    ensures r >= 1
  {
    if n == 0 then 1 else 31 * Pow31(n - 1)
  }

  /** xs[0]*31^(n-1) + ... + xs[n-1]: the sum Java's hash codes are defined by, before overflow. */
  function Polynomial(xs: seq<int>): int
  {
    if xs == [] then 0 else xs[0] * Pow31(|xs| - 1) + Polynomial(xs[1..])
  }

  /** The loop h = 31 * h + x in int arithmetic, from seed, wrapping at every step. */
  function HashLoop(seed: Int32, xs: seq<int>): Int32
  {
    if xs == [] then seed else WrapInt32(31 * HashLoop(seed, xs[..|xs| - 1]) + xs[|xs| - 1])
  }

  /** String.hashCode over the code units of s. */
  function StringHashCode(s: JavaString): Int32
  {
    HashLoop(0, s)
  }

  /** Java's byte values of an unsigned byte string. */
  function SignedBytes(bytes: seq<Byte>): (r: seq<int>)
    ensures |r| == |bytes|
    ensures forall i :: 0 <= i < |bytes| ==> r[i] == SignedByte(bytes[i])
  {
    if bytes == [] then [] else [SignedByte(bytes[0])] + SignedBytes(bytes[1..])
  }

  /** Arrays.hashCode(byte[]) of a non-null array. */
  function ArraysHashCode(bytes: seq<Byte>): Int32
  {
    HashLoop(1, SignedBytes(bytes))
  }

  lemma {:induction false} PolynomialSnoc(xs: seq<int>, c: int)
    ensures Polynomial(xs + [c]) == 31 * Polynomial(xs) + c
  {
    if xs == [] {
      assert [] + [c] == [c];
    } else {
      var ys := xs + [c];
      assert ys[0] == xs[0] && ys[1..] == xs[1..] + [c];
      PolynomialSnoc(xs[1..], c);
      assert xs[0] * Pow31(|xs|) == 31 * (xs[0] * Pow31(|xs| - 1));
    }
  }

  /** Adding a multiple of 2^32 does not change the int a value narrows to. */
  lemma WrapShift(y: int, j: int)
    ensures WrapInt32(y + 0x1_0000_0000 * j) == WrapInt32(y)
  {
    assert (y + 0x1_0000_0000 * j) % 0x1_0000_0000 == y % 0x1_0000_0000;
  }

  /** Wrapping at every step of the loop gives what wrapping once at the end gives. */
  lemma WrapStep(x: int, c: int)
    ensures WrapInt32(31 * WrapInt32(x) + c) == WrapInt32(31 * x + c)
  {
    var w := WrapInt32(x);
    var q := (w - x) / 0x1_0000_0000;
    assert w - x == 0x1_0000_0000 * q;
    assert 31 * w + c == 31 * x + c + 0x1_0000_0000 * (31 * q);
    WrapShift(31 * x + c, 31 * q);
  }

  /** The hash loop is the polynomial with the seed as its leading coefficient,
      narrowed to int once. */
  lemma {:induction false} HashLoopIsPolynomial(seed: Int32, xs: seq<int>)
    ensures HashLoop(seed, xs) == WrapInt32(seed * Pow31(|xs|) + Polynomial(xs))
  {
    if xs == [] {
      WrapInt32Identity(seed);
    } else {
      var ys, c := xs[..|xs| - 1], xs[|xs| - 1];
      assert ys + [c] == xs;
      var power, poly := Pow31(|ys|), Polynomial(ys);
      HashLoopIsPolynomial(seed, ys);
      assert HashLoop(seed, xs) == WrapInt32(31 * HashLoop(seed, ys) + c);
      WrapStep(seed * power + poly, c);
      PolynomialSnoc(ys, c);
      assert Pow31(|xs|) == 31 * power;
      SnocArithmetic(seed, power, poly, c);
    }
  }

  lemma SnocArithmetic(seed: int, power: int, poly: int, c: int)
    ensures 31 * (seed * power + poly) + c == seed * (31 * power) + (31 * poly + c)
  {
    assert seed * (31 * power) == 31 * (seed * power);
  }

  /** String.hashCode is the sum of s[i]*31^(n-1-i), narrowed to int. */
  lemma StringHashCodeIsPolynomial(s: JavaString)
    ensures StringHashCode(s) == WrapInt32(Polynomial(s))
  {
    HashLoopIsPolynomial(0, s);
  }

  /** Arrays.hashCode is 31^n plus the sum of b[i]*31^(n-1-i), narrowed to int. */
  lemma {:induction false} ArraysHashCodeIsPolynomial(bytes: seq<Byte>)
    ensures ArraysHashCode(bytes) == WrapInt32(Pow31(|bytes|) + Polynomial(SignedBytes(bytes)))
  {
    HashLoopFromOne(SignedBytes(bytes));
  }

  /** The loop from seed 1, as Arrays.hashCode runs it. */
  lemma {:induction false} HashLoopFromOne(xs: seq<int>)
    ensures HashLoop(1, xs) == WrapInt32(Pow31(|xs|) + Polynomial(xs))
  {
    HashLoopIsPolynomial(1, xs);
    assert 1 * Pow31(|xs|) == Pow31(|xs|);
  }

  // ---------------------------------------------------------------------------
  // Classes and the envelope

  /**
   * What the model knows of a class implementing Dormant: its name, the kinds
   * its write(Serde) writes and its read(Serde) reads back in the same order,
   * and what the registry checks before registering it.
   */
  datatype DormantClass = DormantClass(
    name: JavaString,
    kinds: seq<Kind>,
    isAbstract: bool,
    isInterface: bool,
    hasNoArgConstructor: bool)

  /** typeId: the hash code of the class name. */
  function TypeIdOf(c: DormantClass): Int32
  {
    StringHashCode(c.name)
  }

  /** BinarySerde.serialize and Dormant.write(): magic, type id, then the fields. */
  function Serialize(c: DormantClass, vs: seq<Value>): seq<Byte>
    requires ConformsAll(vs, c.kinds)
  {
    EncodeInt(MAGIC) + EncodeInt(TypeIdOf(c)) + EncodeFields(c.kinds, vs)
  }

  /** peekTypeId: the second int, once the first is the magic number. */
  function PeekTypeId(data: seq<Byte>): Result<Int32, Fault>
  {
    match Decode(IntK, data, 0)
    case Fail(f) => Err(f)
    case Got(magic, p) =>
      if magic.i != MAGIC then Err(BadMagic(magic.i))
      else
        match Decode(IntK, data, p)
        case Fail(f) => Err(f)
        case Got(id, _) => Ok(id.i)
  }

  /** BinarySerde.deserialize: the magic and the type id are checked before any field is read. */
  function Deserialize(data: seq<Byte>, c: DormantClass): Result<seq<Value>, Fault>
  {
    match PeekTypeId(data)
    case Err(f) => Err(f)
    case Ok(id) =>
      if id != TypeIdOf(c) then Err(TypeIdMismatch(TypeIdOf(c), id))
      else
        match DecodeFields(c.kinds, data, 8)
        case FailSeq(f) => Err(f)
        case GotSeq(vs, _) => Ok(vs)
  }

  /** Dormant.read(InputStream): two header ints read and not checked, then the fields. */
  function ReadUnchecked(data: seq<Byte>, c: DormantClass): Result<seq<Value>, Fault>
  {
    match Decode(IntK, data, 0)
    case Fail(f) => Err(f)
    case Got(_, p) =>
      match Decode(IntK, data, p)
      case Fail(f) => Err(f)
      case Got(_, q) =>
        match DecodeFields(c.kinds, data, q)
        case FailSeq(f) => Err(f)
        case GotSeq(vs, _) => Ok(vs)
  }

  /** readExternal over s at p: a length, that many bytes, and read(bytes) on them;
      the position after the bytes comes back with the fields. */
  function ReadExternalAt(s: seq<Byte>, p: nat, c: DormantClass): Result<(seq<Value>, nat), Fault>
  {
    match ExternalPayload(s, p)
    case Err(f) => Err(f)
    case Ok((w, q)) =>
      match ReadUnchecked(w, c)
      case Err(f) => Err(f)
      case Ok(vs) => Ok((vs, q))
  }

  // ---------------------------------------------------------------------------
  // Laws of the envelope

  /** The three parts of an envelope sit one after the other. */
  lemma SerializeLayout(c: DormantClass, vs: seq<Value>, s: seq<Byte>)
    requires ConformsAll(vs, c.kinds) && At(s, 0, Serialize(c, vs))
    ensures At(s, 0, EncodeInt(MAGIC)) && At(s, 4, EncodeInt(TypeIdOf(c)))
    ensures At(s, 8, EncodeFields(c.kinds, vs))
  {
    var header := EncodeInt(MAGIC) + EncodeInt(TypeIdOf(c));
    AtSplit(s, 0, header, EncodeFields(c.kinds, vs));
    AtSplit(s, 0, EncodeInt(MAGIC), EncodeInt(TypeIdOf(c)));
  }

  lemma AtFront(w: seq<Byte>, rest: seq<Byte>)
    ensures At(w + rest, 0, w)
  {
    assert (w + rest)[..|w|] == w;
  }

  /** An envelope starts with D0 BA CA FE and then the type id's four bytes. */
  lemma SerializeStartsWithMagic(c: DormantClass, vs: seq<Value>)
    requires ConformsAll(vs, c.kinds)
    ensures Serialize(c, vs)[..4] == [0xD0, 0xBA, 0xCA, 0xFE]
    ensures Serialize(c, vs)[4..8] == EncodeInt(TypeIdOf(c))
  {
    MagicBytes();
    var s := Serialize(c, vs);
    AtFront(s, []);
    assert s + [] == s;
    SerializeLayout(c, vs, s);
  }

  /** peekTypeId of an envelope is the type id of its class. */
  lemma PeekTypeIdRoundTrip(c: DormantClass, vs: seq<Value>, rest: seq<Byte>)
    requires ConformsAll(vs, c.kinds)
    ensures PeekTypeId(Serialize(c, vs) + rest) == Ok(TypeIdOf(c))
  {
    var s := Serialize(c, vs) + rest;
    AtFront(Serialize(c, vs), rest);
    SerializeLayout(c, vs, s);
    IntField(MAGIC, s, 0);
    IntField(TypeIdOf(c), s, 4);
  }

  /** deserialize restores the fields serialize wrote, their NaNs canonical,
      whatever follows the envelope. */
  lemma DeserializeRoundTrip(c: DormantClass, vs: seq<Value>, rest: seq<Byte>)
    requires ConformsAll(vs, c.kinds)
    ensures Deserialize(Serialize(c, vs) + rest, c) == Ok(CanonAll(vs))
  {
    var s := Serialize(c, vs) + rest;
    PeekTypeIdRoundTrip(c, vs, rest);
    AtFront(Serialize(c, vs), rest);
    SerializeLayout(c, vs, s);
    RoundTripFields(c.kinds, vs, s, 8);
  }

  /** An envelope of one class offered to a class with another type id is refused
      with both ids, before any field is read. */
  lemma DeserializeWrongClass(c: DormantClass, vs: seq<Value>, other: DormantClass)
    requires ConformsAll(vs, c.kinds) && TypeIdOf(other) != TypeIdOf(c)
    ensures Deserialize(Serialize(c, vs), other) == Err(TypeIdMismatch(TypeIdOf(other), TypeIdOf(c)))
  {
    PeekTypeIdRoundTrip(c, vs, []);
    assert Serialize(c, vs) + [] == Serialize(c, vs);
  }

  /** A first int other than the magic number is refused as such by peekTypeId and
      by deserialize, whatever class is expected. */
  lemma BadMagicRefused(data: seq<Byte>, c: DormantClass)
    requires |data| >= 4 && IntAt(data, 0) != MAGIC
    ensures PeekTypeId(data) == Err(BadMagic(IntAt(data, 0)))
    ensures Deserialize(data, c) == Err(BadMagic(IntAt(data, 0)))
  {
  }

  /** read(InputStream) skips any eight header bytes unchecked and reads the fields after them. */
  lemma ReadIgnoresHeader(header: seq<Byte>, c: DormantClass, vs: seq<Value>, rest: seq<Byte>)
    requires |header| == 8 && ConformsAll(vs, c.kinds)
    ensures ReadUnchecked(header + EncodeFields(c.kinds, vs) + rest, c) == Ok(CanonAll(vs))
  {
    var s := header + EncodeFields(c.kinds, vs) + rest;
    assert s[8..8 + |EncodeFields(c.kinds, vs)|] == EncodeFields(c.kinds, vs);
    RoundTripFields(c.kinds, vs, s, 8);
  }

  /** read(write()) restores the fields, their NaNs canonical. */
  lemma ReadWriteRoundTrip(c: DormantClass, vs: seq<Value>)
    requires ConformsAll(vs, c.kinds)
    ensures ReadUnchecked(Serialize(c, vs), c) == Ok(CanonAll(vs))
  {
    var header := EncodeInt(MAGIC) + EncodeInt(TypeIdOf(c));
    assert Serialize(c, vs) == header + EncodeFields(c.kinds, vs) + [];
    ReadIgnoresHeader(header, c, vs, []);
  }

  /** Two envelopes of one class are the same bytes exactly when the fields are
      the same up to the payloads of their NaNs. */
  lemma SerializeInjective(c: DormantClass, vs1: seq<Value>, vs2: seq<Value>)
    requires ConformsAll(vs1, c.kinds) && ConformsAll(vs2, c.kinds)
    ensures Serialize(c, vs1) == Serialize(c, vs2) <==> CanonAll(vs1) == CanonAll(vs2)
  {
    if Serialize(c, vs1) == Serialize(c, vs2) {
      DeserializeRoundTrip(c, vs1, []);
      DeserializeRoundTrip(c, vs2, []);
    }
    if CanonAll(vs1) == CanonAll(vs2) {
      FieldsSameCanon(c.kinds, vs1, vs2);
    }
  }

  /** readExternal reads back what writeExternal wrote, and stops right after it. */
  lemma ExternalRoundTrip(c: DormantClass, vs: seq<Value>, s: seq<Byte>, p: nat)
    requires ConformsAll(vs, c.kinds) && |Serialize(c, vs)| < INT_LIMIT
    requires At(s, p, EncodeInt(|Serialize(c, vs)|) + Serialize(c, vs))
    ensures ReadExternalAt(s, p, c) == Ok((CanonAll(vs), p + 4 + |Serialize(c, vs)|))
  {
    ReadWriteRoundTrip(c, vs);
    ReadExternalOf(s, p, c, Serialize(c, vs), CanonAll(vs));
  }

  /** readExternal over a length-prefixed byte string reads what read(bytes) reads. */
  lemma ReadExternalOf(s: seq<Byte>, p: nat, c: DormantClass, w: seq<Byte>, vs: seq<Value>)
    requires |w| < INT_LIMIT && At(s, p, EncodeInt(|w|) + w) && ReadUnchecked(w, c) == Ok(vs)
    ensures ReadExternalAt(s, p, c) == Ok((vs, p + 4 + |w|))
  {
    AtSplit(s, p, EncodeInt(|w|), w);
    IntField(|w|, s, p);
    assert s[p + 4..p + 4 + |w|] == w;
  }

  /** A record of every kind, a nested object among them, survives the envelope,
      its double with a canonical NaN. */
  lemma RecordRoundTrip(c: DormantClass, vs: seq<Value>)
    requires c.kinds == [IntK, LongK, DoubleK, BooleanK, ByteK, ShortK, CharK, StringK, DecimalK, DateK,
                         NestedK([StringK, IntK]), ListK(StringK), MapK(StringK, DecimalK)]
    requires ConformsAll(vs, c.kinds)
    ensures Deserialize(Serialize(c, vs), c) == Ok(CanonAll(vs))
  {
    DeserializeRoundTrip(c, vs, []);
    assert Serialize(c, vs) + [] == Serialize(c, vs);
  }

  // ---------------------------------------------------------------------------
  // Reads that stop part-way

  /**
   * The fields after read(Serde). A class's read is a chain of consumers that
   * assigns each field as soon as it is decoded, so a fault at some field
   * leaves the fields before it read and that field and the ones after it as
   * they were.
   */
  function AfterRead(ks: seq<Kind>, s: seq<Byte>, p: nat, before: seq<Value>): (after: seq<Value>)
    requires |before| == |ks|
    ensures |after| == |ks|
    ensures DecodeFields(ks, s, p).GotSeq? ==> after == DecodeFields(ks, s, p).values
    decreases |ks|
  {
    if ks == [] then []
    else
      match Decode(ks[0], s, p)
      case Fail(_) => before
      case Got(v, q) => [v] + AfterRead(ks[1..], s, q, before[1..])
  }

  /** The first field of read(Serde): a fault ends the read with every field as
      it was, a value is assigned and the read goes on with the next field. */
  lemma ReadFieldStep(ks: seq<Kind>, s: seq<Byte>, p: nat, before: seq<Value>)
    requires ks != [] && |before| == |ks|
    ensures var d := Decode(ks[0], s, p);
      && (d.Fail? ==> DecodeFields(ks, s, p) == FailSeq(d.fault) && AfterRead(ks, s, p, before) == before)
      && (d.Got? ==>
            && DecodeFields(ks, s, p) == Prepend([d.value], DecodeFields(ks[1..], s, d.next))
            && AfterRead(ks, s, p, before) == [d.value] + AfterRead(ks[1..], s, d.next, before[1..]))
  {
  }

  /**
   * Where read(Serde) stands after i fields, at position p: the first i fields
   * hold what it decoded, the others are as they were, and the rest of the read
   * from p accounts for the outcome and the final fields.
   */
  ghost predicate ReadAt(ks: seq<Kind>, s: seq<Byte>, p0: nat, before: seq<Value>, fs: seq<Value>, i: nat, p: nat)
  {
    && i <= |ks| && |fs| == |ks| && |before| == |ks| && fs[i..] == before[i..]
    && DecodeFields(ks, s, p0) == Prepend(fs[..i], DecodeFields(ks[i..], s, p))
    && AfterRead(ks, s, p0, before) == fs[..i] + AfterRead(ks[i..], s, p, fs[i..])
  }

  lemma ReadAtStart(ks: seq<Kind>, s: seq<Byte>, p: nat, before: seq<Value>)
    requires |before| == |ks|
    ensures ReadAt(ks, s, p, before, before, 0, p)
  {
    assert before[..0] == [] && ks[0..] == ks && before[0..] == before;
  }

  /** One more field read: it is assigned and the read moves on. */
  lemma ReadAtStep(ks: seq<Kind>, s: seq<Byte>, p0: nat, before: seq<Value>, fs: seq<Value>, i: nat, p: nat, v: Value, q: nat)
    requires ReadAt(ks, s, p0, before, fs, i, p) && i < |ks| && Decode(ks[i], s, p) == Got(v, q)
    ensures ReadAt(ks, s, p0, before, fs[i := v], i + 1, q)
  {
    ReadFieldDecoded(ks, s, p, fs, i, v, q);
    ReadFieldAssigned(ks, s, p, fs, i, v, q);
  }

  /** A field that fails ends the read with its fault and the fields as they stand. */
  lemma ReadAtFail(ks: seq<Kind>, s: seq<Byte>, p0: nat, before: seq<Value>, fs: seq<Value>, i: nat, p: nat)
    requires ReadAt(ks, s, p0, before, fs, i, p) && i < |ks| && Decode(ks[i], s, p).Fail?
    ensures DecodeFields(ks, s, p0) == FailSeq(Decode(ks[i], s, p).fault)
    ensures AfterRead(ks, s, p0, before) == fs
  {
    ReadFieldFails(ks, s, p, fs, i);
  }

  /** Every field read: the read succeeds at p with the fields as they stand. */
  lemma ReadAtEnd(ks: seq<Kind>, s: seq<Byte>, p0: nat, before: seq<Value>, fs: seq<Value>, p: nat)
    requires ReadAt(ks, s, p0, before, fs, |ks|, p)
    ensures DecodeFields(ks, s, p0) == GotSeq(fs, p)
    ensures AfterRead(ks, s, p0, before) == fs
  {
    assert ks[|ks|..] == [] && fs[..|ks|] == fs && fs + [] == fs;
  }

  /** One field of read(Serde) at index i fails: the read ends with that fault
      and every field from i on as it was. */
  lemma ReadFieldFails(ks: seq<Kind>, s: seq<Byte>, p: nat, fs: seq<Value>, i: nat)
    requires i < |ks| == |fs| && Decode(ks[i], s, p).Fail?
    ensures Prepend(fs[..i], DecodeFields(ks[i..], s, p)) == FailSeq(Decode(ks[i], s, p).fault)
    ensures fs[..i] + AfterRead(ks[i..], s, p, fs[i..]) == fs
  {
    assert ks[i..][0] == ks[i];
    ReadFieldStep(ks[i..], s, p, fs[i..]);
    assert fs[..i] + fs[i..] == fs;
  }

  /** One field of read(Serde) at index i reads v: the read goes on from the
      next field with v among the values read. */
  lemma ReadFieldDecoded(ks: seq<Kind>, s: seq<Byte>, p: nat, fs: seq<Value>, i: nat, v: Value, q: nat)
    requires i < |ks| == |fs| && Decode(ks[i], s, p) == Got(v, q)
    ensures Prepend(fs[..i], DecodeFields(ks[i..], s, p))
      == Prepend(fs[i := v][..i + 1], DecodeFields(ks[i + 1..], s, q))
  {
    assert ks[i..][0] == ks[i] && ks[i..][1..] == ks[i + 1..];
    assert DecodeFields(ks[i..], s, p) == Prepend([v], DecodeFields(ks[i + 1..], s, q));
    assert fs[i := v][..i + 1] == fs[..i] + [v];
    PrependAppend(fs[..i], v, DecodeFields(ks[i + 1..], s, q));
  }

  /** One field of read(Serde) at index i reads v: v is assigned to that field
      and the fields after it are left to the rest of the read. */
  lemma ReadFieldAssigned(ks: seq<Kind>, s: seq<Byte>, p: nat, fs: seq<Value>, i: nat, v: Value, q: nat)
    requires i < |ks| == |fs| && Decode(ks[i], s, p) == Got(v, q)
    ensures fs[..i] + AfterRead(ks[i..], s, p, fs[i..])
      == fs[i := v][..i + 1] + AfterRead(ks[i + 1..], s, q, fs[i := v][i + 1..])
  {
    assert ks[i..][0] == ks[i] && ks[i..][1..] == ks[i + 1..];
    assert fs[i..][1..] == fs[i + 1..] == fs[i := v][i + 1..];
    var rest := AfterRead(ks[i + 1..], s, q, fs[i + 1..]);
    assert AfterRead(ks[i..], s, p, fs[i..]) == [v] + rest;
    assert fs[i := v][..i + 1] == fs[..i] + [v];
  }

  /** How far read(Serde) gets: the number of fields decoded before it stops,
      and the position after them. */
  function Progress(ks: seq<Kind>, s: seq<Byte>, p: nat): (r: (nat, nat))
    ensures r.0 <= |ks|
    decreases |ks|
  {
    if ks == [] then (0, p)
    else
      match Decode(ks[0], s, p)
      case Fail(_) => (0, p)
      case Got(_, q) => (Progress(ks[1..], s, q).0 + 1, Progress(ks[1..], s, q).1)
  }

  /** A read that fails has decoded the j fields before the failing one, that
      field raises the read's fault right after them, and the fields from j on
      keep their old values. */
  lemma {:induction false} AfterReadFault(ks: seq<Kind>, s: seq<Byte>, p: nat, before: seq<Value>)
    requires |before| == |ks| && DecodeFields(ks, s, p).FailSeq?
    ensures var j := Progress(ks, s, p).0;
      var after := AfterRead(ks, s, p, before);
      && j < |ks|
      && DecodeFields(ks[..j], s, p) == GotSeq(after[..j], Progress(ks, s, p).1)
      && Decode(ks[j], s, Progress(ks, s, p).1) == Fail(DecodeFields(ks, s, p).fault)
      && after[j..] == before[j..]
    decreases |ks|
  {
    match Decode(ks[0], s, p)
    case Fail(_) =>
      assert ks[..0] == [];
    case Got(v, q) =>
      AfterReadFault(ks[1..], s, q, before[1..]);
      var j := Progress(ks[1..], s, q).0;
      var rest := AfterRead(ks[1..], s, q, before[1..]);
      assert ks[..j + 1][1..] == ks[1..][..j];
      DecodeFieldsCons(ks[..j + 1], s, p, v, q, rest[..j], Progress(ks[1..], s, q).1);
      assert ([v] + rest)[..j + 1] == [v] + rest[..j];
  }

  /** The fields after read(bytes) and read(InputStream): nothing is assigned
      unless both header ints are there, and then read(Serde) runs from byte 8. */
  function ReadAssigns(bytes: seq<Byte>, c: DormantClass, before: seq<Value>): (after: seq<Value>)
    requires |before| == |c.kinds|
    ensures |after| == |c.kinds|
    ensures ReadUnchecked(bytes, c).Ok? ==> after == ReadUnchecked(bytes, c).value
  {
    if |bytes| < 8 then before else AfterRead(c.kinds, bytes, 8, before)
  }

  /** A read that fails at its second field has already assigned the first: an
      int field and a string field, read from any header, the int 7 and the
      string length -2, end with NegativeArraySizeException, the int field 7
      and the string field as it was. */
  lemma PartialReadExample(c: DormantClass, header: seq<Byte>, before: seq<Value>)
    requires c.kinds == [IntK, StringK] && |header| == 8 && |before| == 2
    ensures var bytes := header + EncodeInt(7) + EncodeInt(-2);
      && ReadUnchecked(bytes, c) == Err(NegativeArraySize(-2))
      && ReadAssigns(bytes, c, before) == [IntV(7), before[1]]
  {
    var bytes := header + EncodeInt(7) + EncodeInt(-2);
    PartialReadBytes(header);
    assert [IntK, StringK][1..] == [StringK];
    assert AfterRead([StringK], bytes, 12, before[1..]) == before[1..];
  }

  /** The bytes of that example: the int 7 at byte 8, and a string at byte 12
      whose length -2 is refused. */
  lemma PartialReadBytes(header: seq<Byte>)
    requires |header| == 8
    ensures var bytes := header + EncodeInt(7) + EncodeInt(-2);
      && |bytes| == 16
      && Decode(IntK, bytes, 8) == Got(IntV(7), 12)
      && Decode(StringK, bytes, 12) == Fail(NegativeArraySize(-2))
  {
    var bytes := header + EncodeInt(7) + EncodeInt(-2);
    assert At(bytes, 8, EncodeInt(7)) && At(bytes, 12, EncodeInt(-2));
    IntField(7, bytes, 8);
    IntField(-2, bytes, 12);
  }

  /** readExternal's framing over s at p: an int length, then exactly that many
      bytes, and the position after them. */
  function ExternalPayload(s: seq<Byte>, p: nat): (r: Result<(seq<Byte>, nat), Fault>)
    ensures r.Ok? ==> p + 4 + |r.value.0| == r.value.1 <= |s| && r.value.0 == s[p + 4..r.value.1]
  {
    match Decode(IntK, s, p)
    case Fail(f) => Err(f)
    case Got(n, q) =>
      var len := n.i;
      if len < 0 then Err(NegativeArraySize(len))
      else if |s| < q + len then Err(EndOfStream)
      else Ok((s[q..q + len], q + len))
  }

  // ---------------------------------------------------------------------------
  // Objects

  /** An object of a Dormant class: its class and the current values of its fields. */
  class DormantObject {
    const cls: DormantClass
    var fields: seq<Value>

    constructor(c: DormantClass, vs: seq<Value>)
      ensures cls == c && fields == vs
    {
      cls := c;
      fields := vs;
    }

    /** The fields have the kinds the class writes them with. */
    predicate Valid()
      reads this
    {
      ConformsAll(fields, cls.kinds)
    }

    /** write(Serde): each field with the write method of its kind, in order. */
    method WriteTo(serde: WriterSession)
      requires Valid()
      modifies serde
      ensures serde.out == old(serde.out) + EncodeFields(cls.kinds, fields)
    {
      serde.WriteFields(cls.kinds, fields);
    }

    /** write(), write(OutputStream) and BinarySerde.serialize: a fresh session gets
        the magic number, the type id and then the object's own write. */
    method Write() returns (bytes: seq<Byte>)
      requires Valid()
      ensures bytes == Serialize(cls, fields)
    {
      var serde := new WriterSession();
      serde.WriteInt(MAGIC);
      serde.WriteInt(TypeIdOf(cls));
      WriteTo(serde);
      bytes := serde.out;
    }

    /** read(Serde): the fields back from the session, in the order write(Serde)
        put them, each assigned as soon as it is decoded. */
    method ReadFrom(serde: ReaderSession) returns (r: Result<(), Fault>)
      requires |fields| == |cls.kinds|
      modifies this, serde
      ensures fields == AfterRead(cls.kinds, serde.data, old(serde.pos), old(fields))
      ensures var d := DecodeFields(cls.kinds, serde.data, old(serde.pos));
        && (d.GotSeq? ==> r == Ok(()) && serde.pos == d.next)
        && (d.FailSeq? ==> r == Err(d.fault))
    {
      var ks := cls.kinds;
      var i := 0;
      ReadAtStart(ks, serde.data, serde.pos, fields);
      while i < |ks|
        invariant ReadAt(ks, serde.data, old(serde.pos), old(fields), fields, i, serde.pos)
      {
        ghost var p := serde.pos;
        var v := serde.Read(ks[i]);
        if v.Err? {
          ReadAtFail(ks, serde.data, old(serde.pos), old(fields), fields, i, p);
          return Err(v.error);
        }
        ReadAtStep(ks, serde.data, old(serde.pos), old(fields), fields, i, p, v.value, serde.pos);
        fields := fields[i := v.value];
        i := i + 1;
      }
      ReadAtEnd(ks, serde.data, old(serde.pos), old(fields), fields, serde.pos);
      r := Ok(());
    }

    /** read(byte[]) and read(InputStream): the magic number and the type id are
        read and ignored, then the fields are read. */
    method Read(bytes: seq<Byte>) returns (r: Result<(), Fault>)
      requires |fields| == |cls.kinds|
      modifies this
      ensures fields == ReadAssigns(bytes, cls, old(fields))
      ensures ReadUnchecked(bytes, cls).Ok? ==> r == Ok(())
      ensures ReadUnchecked(bytes, cls).Err? ==> r == Err(ReadUnchecked(bytes, cls).error)
    {
      var serde := new ReaderSession(bytes);
      var magic := serde.ReadScalar(IntK);
      if magic.Err? {
        return Err(magic.error);
      }
      var id := serde.ReadScalar(IntK);
      if id.Err? {
        return Err(id.error);
      }
      r := ReadFrom(serde);
    }

    /** BinarySerde.deserialize(data, this): the magic number and the type id are
        checked before the object's own read, which then assigns field by field. */
    method DeserializeFrom(data: seq<Byte>) returns (r: Result<(), Fault>)
      requires |fields| == |cls.kinds|
      modifies this
      ensures fields == if PeekTypeId(data) == Ok(TypeIdOf(cls)) then AfterRead(cls.kinds, data, 8, old(fields))
        else old(fields)
      ensures Deserialize(data, cls).Ok? ==> r == Ok(()) && fields == Deserialize(data, cls).value
      ensures Deserialize(data, cls).Err? ==> r == Err(Deserialize(data, cls).error)
    {
      var serde := new ReaderSession(data);
      var magic := serde.ReadScalar(IntK);
      if magic.Err? {
        return Err(magic.error);
      }
      if magic.value.i != MAGIC {
        return Err(BadMagic(magic.value.i));
      }
      var id := serde.ReadScalar(IntK);
      if id.Err? {
        return Err(id.error);
      }
      if id.value.i != TypeIdOf(cls) {
        return Err(TypeIdMismatch(TypeIdOf(cls), id.value.i));
      }
      r := ReadFrom(serde);
    }

    /** writeExternal: the length of write() as an int, then those bytes. */
    method WriteExternal(out: WriterSession)
      requires Valid() && |Serialize(cls, fields)| < INT_LIMIT
      modifies out
      ensures out.out == old(out.out) + EncodeInt(|Serialize(cls, fields)|) + Serialize(cls, fields)
    {
      var bytes := Write();
      out.WriteInt(|bytes|);
      out.out := out.out + bytes;
    }

    /** readExternal: an int length, exactly that many bytes, and read(bytes) on them. */
    method ReadExternal(input: ReaderSession) returns (r: Result<(), Fault>)
      requires |fields| == |cls.kinds|
      modifies this, input
      ensures fields == match ExternalPayload(input.data, old(input.pos))
        case Err(_) => old(fields)
        case Ok((w, _)) => ReadAssigns(w, cls, old(fields))
      ensures var d := ReadExternalAt(input.data, old(input.pos), cls);
        && (d.Ok? ==> r == Ok(()) && fields == d.value.0 && input.pos == d.value.1)
        && (d.Err? ==> r == Err(d.error))
    {
      var n := input.ReadScalar(IntK);
      if n.Err? {
        return Err(n.error);
      }
      var len := n.value.i;
      if len < 0 {
        return Err(NegativeArraySize(len));
      }
      if |input.data| < input.pos + len {
        return Err(EndOfStream);
      }
      var bytes := input.data[input.pos..input.pos + len];
      input.pos := input.pos + len;
      r := Read(bytes);
    }

    /** AbstractDormant.equals: the same object, or else an object of the same
        class whose write() bytes are the same. */
    predicate Equals(o: DormantObject?)
      reads this, o
      requires Valid() && (o != null ==> o.Valid())
    {
      if this == o then true
      else if o == null || o.cls != cls then false
      else Serialize(cls, fields) == Serialize(o.cls, o.fields)
    }

    /** AbstractDormant.hashCode: Arrays.hashCode of the write() bytes. */
    function HashCode(): Int32
      reads this
      requires Valid()
    {
      ArraysHashCode(Serialize(cls, fields))
    }
  }

  /** Two objects are equal exactly when they are one object or have the same
      class and the same field values up to the payloads of their NaNs. */
  lemma EqualsIffSameState(a: DormantObject, b: DormantObject?)
    requires a.Valid() && (b != null ==> b.Valid())
    ensures a.Equals(b) <==> b != null && (a == b || (a.cls == b.cls && CanonAll(a.fields) == CanonAll(b.fields)))
  {
    if b != null && a != b && a.cls == b.cls {
      SerializeInjective(a.cls, a.fields, b.fields);
    }
  }

  /** equals is an equivalence on valid objects. */
  lemma EqualsEquivalence(a: DormantObject, b: DormantObject, c: DormantObject)
    requires a.Valid() && b.Valid() && c.Valid()
    ensures a.Equals(a)
    ensures a.Equals(b) <==> b.Equals(a)
    ensures a.Equals(b) && b.Equals(c) ==> a.Equals(c)
  {
    EqualsIffSameState(a, b);
    EqualsIffSameState(b, a);
    EqualsIffSameState(b, c);
    EqualsIffSameState(a, c);
  }

  /** Equal objects have equal hash codes. */
  lemma HashCodeConsistent(a: DormantObject, b: DormantObject)
    requires a.Valid() && b.Valid() && a.Equals(b)
    ensures a.HashCode() == b.HashCode()
  {
  }

  /** Dormant.TYPE_ID_CACHE: a type id computed once per class name and reused. */
  class TypeIdCache {
    var cache: map<JavaString, Int32>

    constructor()
      ensures cache == map[]
    {
      cache := map[];
    }

    /** Every cached id is the hash code of its class name. */
    predicate Valid()
      reads this
    {
      forall name :: name in cache ==> cache[name] == StringHashCode(name)
    }

    /** typeId(): the cached id, or the hash code of the name computed and kept. */
    method Get(c: DormantClass) returns (id: Int32)
      requires Valid()
      modifies this
      ensures Valid() && id == TypeIdOf(c)
      ensures cache == old(cache)[c.name := id]
    {
      if c.name in cache {
        id := cache[c.name];
      } else {
        id := StringHashCode(c.name);
        cache := cache[c.name := id];
      }
    }
  }
}
