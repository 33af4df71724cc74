// The binary wire format of BinarySerde: what each write method appends to
// the stream and what each read method takes back, as pure functions over
// byte sequences. A decoder reads at a position and returns the value with
// the position after it, or the fault the Java code throws.

module Wire {
  import opened Wrappers
  import opened Bytes
  import Utf8
  import TwosComplement

  /** The epoch-day range of java.time.LocalDate (years -999999999 to 999999999). */
  const MIN_EPOCH_DAY: int := -365243219162
  const MAX_EPOCH_DAY: int := 365241780471

  type EpochDay = d: int | MIN_EPOCH_DAY <= d <= MAX_EPOCH_DAY

  /** A BigDecimal: unscaled value times ten to the minus scale. */
  datatype Decimal = Decimal(unscaled: int, scale: Int32)

  /** Why a read fails: the exception the Java code raises. */
  datatype Fault =
    | EndOfStream                       // EOFException from the input stream
    | NegativeArraySize(length: int)    // new byte[length] with a negative length
    | EmptyMagnitude                    // new BigInteger(new byte[0])
    | IllegalCapacity(size: int)        // new ArrayList/HashMap with a negative size
    | DateOutOfRange(epochDay: int)     // LocalDate.ofEpochDay outside its range
    | BadMagic(found: Int32)            // the envelope does not start with the magic number
    | TypeIdMismatch(expected: Int32, found: Int32)
    | UnknownTypeId(id: Int32)          // no class registered under this type id

  /** The declared type of a field: what the reader is told to read next. */
  datatype Kind =
    | IntK | LongK | FloatK | DoubleK | BooleanK | ByteK | ShortK | CharK
    | StringK
    | DecimalK
    | DateK
    | NestedK(fields: seq<Kind>)        // a nested Dormant with these field kinds
    | ListK(elem: Kind)
    | MapK(key: Kind, val: Kind)

  /**
   * A field value. Null stands for Java's null in a field of reference kind.
   * Floats and doubles are their raw IEEE bit patterns, as floatToRawIntBits
   * and doubleToRawLongBits give them: a NaN read from the stream keeps its
   * payload. A map is its entries in iteration order.
   */
  datatype Value =
    | IntV(i: Int32)
    | LongV(l: Int64)
    | FloatV(fbits: Int32)
    | DoubleV(dbits: Int64)
    | BooleanV(flag: bool)
    | ByteV(octet: Int8)
    | ShortV(sh: Int16)
    | CharV(ch: Char16)
    | StringV(text: Utf8.Text)
    | DecimalV(dec: Decimal)
    | DateV(day: EpochDay)
    | NestedV(fields: seq<Value>)
    | ListV(elems: seq<Value>)
    | MapV(entries: seq<Entry>)
    | Null

  /** A key and its value, as a map's entrySet hands them out. */
  datatype Entry = Entry(key: Value, value: Value)

  /** The outcome of reading one value: the value and the position after it, or the fault. */
  datatype Decoded = Fail(fault: Fault) | Got(value: Value, next: nat)

  /** The outcome of reading several values in a row. */
  datatype DecodedSeq = FailSeq(fault: Fault) | GotSeq(values: seq<Value>, next: nat)

  /** The outcome of reading one map entry. */
  datatype DecodedEntry = FailEntry(fault: Fault) | GotEntry(key: Value, val: Value, next: nat)

  /** The outcome of reading several map entries in a row. */
  datatype DecodedEntries = FailEntries(fault: Fault) | GotEntries(entries: seq<Entry>, next: nat)

  const INT_LIMIT: int := 0x8000_0000

  /** A termination measure: a reference kind outweighs the primitive kinds its codec uses. */
  function KindSize(k: Kind): nat
  {
    match k
    case NestedK(fs) => 2 + KindsSize(fs)
    case ListK(e) => 2 + KindSize(e)
    case MapK(a, b) => 2 + KindSize(a) + KindSize(b)
    case StringK => 2
    case DecimalK => 2
    case DateK => 2
    case _ => 1
  }

  function KindsSize(ks: seq<Kind>): nat
  {
    if ks == [] then 0 else KindSize(ks[0]) + KindsSize(ks[1..])
  }

  // ---------------------------------------------------------------------------
  // Shape

  predicate IsReference(k: Kind)
  {
    !(k.IntK? || k.LongK? || k.FloatK? || k.DoubleK? || k.BooleanK? || k.ByteK? || k.ShortK? || k.CharK?)
  }

  /**
   * v is a value of kind k: null only where k is a reference kind, and every
   * length the encoding writes fits the signed 32-bit count that carries it.
   * Maps are written as their entry lists; distinct keys are a separate
   * predicate, since the wire format itself does not depend on them.
   * The case analysis is compared with true so that checking this predicate
   * is one proof obligation rather than one per kind.
   */
  predicate Conforms(v: Value, k: Kind)
    decreases KindSize(k), 0
  {
    (if v.Null? then IsReference(k)
    else
      match k
      case IntK => v.IntV?
      case LongK => v.LongV?
      case FloatK => v.FloatV?
      case DoubleK => v.DoubleV?
      case BooleanK => v.BooleanV?
      case ByteK => v.ByteV?
      case ShortK => v.ShortV?
      case CharK => v.CharV?
      case StringK => IsWritableString(v)
      case DecimalK => IsWritableDecimal(v)
      case DateK => v.DateV?
      case NestedK(fs) => v.NestedV? && ConformsAll(v.fields, fs)
      case ListK(e) => v.ListV? && |v.elems| < INT_LIMIT && ElemsConform(v.elems, e)
      case MapK(a, b) =>
        v.MapV? && |v.entries| < INT_LIMIT && EntriesConform(v.entries, a, b)) == true
  }

  /** A string whose UTF-8 form is short enough for its int length prefix. */
  predicate IsWritableString(v: Value)
  {
    v.StringV? && Utf8.EncodedLength(v.text) < INT_LIMIT
  }

  /** A decimal whose magnitude is short enough for its int length prefix. */
  predicate IsWritableDecimal(v: Value)
  {
    v.DecimalV? && TwosComplement.ByteLength(v.dec.unscaled) < INT_LIMIT
  }

  /** Field by field, vs conforms to ks. */
  predicate ConformsAll(vs: seq<Value>, ks: seq<Kind>)
    decreases KindsSize(ks), 1
  {
    |vs| == |ks| && (ks == [] || (Conforms(vs[0], ks[0]) && ConformsAll(vs[1..], ks[1..])))
  }

  predicate ElemsConform(vs: seq<Value>, e: Kind)
    decreases KindSize(e), 1, |vs|
  {
    vs == [] || (Conforms(vs[0], e) && ElemsConform(vs[1..], e))
  }

  predicate EntriesConform(es: seq<Entry>, a: Kind, b: Kind)
    decreases KindSize(a) + KindSize(b), 1, |es|
  {
    es == [] || (Conforms(es[0].key, a) && Conforms(es[0].value, b) && EntriesConform(es[1..], a, b))
  }

  /** The keys of an entry list, in order. */
  function KeysOf(es: seq<Entry>): (ks: seq<Value>)
    ensures |ks| == |es|
  {
    if es == [] then [] else [es[0].key] + KeysOf(es[1..])
  }

  /** No key occurs twice: the entries of a map as entrySet lists them. */
  predicate DistinctKeys(es: seq<Entry>)
  {
    es == [] || (es[0].key !in KeysOf(es[1..]) && DistinctKeys(es[1..]))
  }

  // ---------------------------------------------------------------------------
  // NaN canonicalisation

  /** The bits of a float NaN: all eight exponent bits set and a non-zero mantissa. */
  predicate IsFloatNaN(x: Int32)
  {
    var u := x % 0x1_0000_0000;
    (u / 0x80_0000) % 0x100 == 0xFF && u % 0x80_0000 != 0
  }

  /** The bits of a double NaN: all eleven exponent bits set and a non-zero mantissa. */
  predicate IsDoubleNaN(x: Int64)
  {
    var u := x % 0x1_0000_0000_0000_0000;
    (u / 0x10_0000_0000_0000) % 0x800 == 0x7FF && u % 0x10_0000_0000_0000 != 0
  }

  const CANONICAL_FLOAT_NAN: Int32 := 0x7FC0_0000
  const CANONICAL_DOUBLE_NAN: Int64 := 0x7FF8_0000_0000_0000

  /** Float.floatToIntBits: the raw bits, except that every NaN becomes 0x7fc00000. */
  function FloatToIntBits(x: Int32): Int32
  {
    if IsFloatNaN(x) then CANONICAL_FLOAT_NAN else x
  }

  /** Double.doubleToLongBits: the raw bits, except that every NaN becomes 0x7ff8000000000000. */
  function DoubleToLongBits(x: Int64): Int64
  {
    if IsDoubleNaN(x) then CANONICAL_DOUBLE_NAN else x
  }

  /** v with every float and double in it, however deeply nested, canonicalised
      as writeFloat and writeDouble canonicalise them. */
  function Canon(v: Value): Value
  {
    match v
    case FloatV(x) => FloatV(FloatToIntBits(x))
    case DoubleV(x) => DoubleV(DoubleToLongBits(x))
    case NestedV(fs) => NestedV(CanonAll(fs))
    case ListV(es) => ListV(CanonAll(es))
    case MapV(es) => MapV(CanonEntries(es))
    case _ => v
  }

  function CanonAll(vs: seq<Value>): (r: seq<Value>)
    ensures |r| == |vs|
  {
    if vs == [] then [] else [Canon(vs[0])] + CanonAll(vs[1..])
  }

  function CanonEntries(es: seq<Entry>): (r: seq<Entry>)
    ensures |r| == |es|
  {
    if es == [] then [] else [CanonEntry(es[0])] + CanonEntries(es[1..])
  }

  function CanonEntry(e: Entry): Entry
  {
    Entry(Canon(e.key), Canon(e.value))
  }

  // ---------------------------------------------------------------------------
  // Writing

  function EncodeInt(x: Int32): (r: seq<Byte>)
    ensures |r| == 4
  {
    Pow256Values();
    EncodeSigned(x, 4)
  }

  function EncodeLong(x: Int64): (r: seq<Byte>)
    ensures |r| == 8
  {
    Pow256Values();
    EncodeSigned(x, 8)
  }

  function EncodeShort(x: Int16): (r: seq<Byte>)
    ensures |r| == 2
  {
    Pow256Values();
    EncodeSigned(x, 2)
  }

  function EncodeByte(x: Int8): (r: seq<Byte>)
    ensures |r| == 1
  {
    Pow256Values();
    EncodeSigned(x, 1)
  }

  function EncodeChar(c: Char16): (r: seq<Byte>)
    ensures |r| == 2
  {
    Pow256Values();
    ToBigEndian(c, 2)
  }

  /** writeBoolean: one byte, 1 for true and 0 for false. */
  function EncodeBoolean(b: bool): (r: seq<Byte>)
    ensures |r| == 1 && (r[0] != 0 <==> b)
  {
    [if b then 1 else 0]
  }

  /** The write methods for the eight primitive kinds. DataOutputStream's
      writeFloat and writeDouble write floatToIntBits and doubleToLongBits. */
  function EncodeScalar(v: Value): seq<Byte>
    requires v.IntV? || v.LongV? || v.FloatV? || v.DoubleV? || v.BooleanV? || v.ByteV? || v.ShortV? || v.CharV?
  {
    match v
    case IntV(x) => EncodeInt(x)
    case LongV(x) => EncodeLong(x)
    case FloatV(x) => EncodeInt(FloatToIntBits(x))
    case DoubleV(x) => EncodeLong(DoubleToLongBits(x))
    case BooleanV(x) => EncodeBoolean(x)
    case ByteV(x) => EncodeByte(x)
    case ShortV(x) => EncodeShort(x)
    case CharV(x) => EncodeChar(x)
  }

  /** What the write method for a field of kind k appends for v. */
  function Encode(k: Kind, v: Value): seq<Byte>
    requires Conforms(v, k)
    decreases KindSize(k), 0, 1
  {
    match k
    case StringK => EncodeString(v)
    case DecimalK => EncodeDecimal(v)
    case DateK => EncodeDate(v)
    case NestedK(fs) => EncodeNested(fs, v)
    case ListK(e) => EncodeList(e, v)
    case MapK(a, b) => EncodeMap(a, b, v)
    case _ => EncodeScalar(v)
  }

  /** writeString: -1 for null, else the UTF-8 byte count and the bytes. */
  function EncodeString(v: Value): seq<Byte>
    requires v.Null? || IsWritableString(v)
    decreases KindSize(StringK), 0, 0
  {
    if v.Null? then EncodeInt(-1)
    else
      Utf8.EncodedLengthIsLength(v.text);
      var u := Utf8.Encode(v.text);
      EncodeInt(|u|) + u
  }

  /** writeBigDecimal: presence flag, scale, magnitude length, magnitude bytes. */
  function EncodeDecimal(v: Value): seq<Byte>
    requires v.Null? || IsWritableDecimal(v)
    decreases KindSize(DecimalK), 0, 0
  {
    if v.Null? then EncodeBoolean(false)
    else
      var m := TwosComplement.ToByteArray(v.dec.unscaled);
      EncodeBoolean(true) + EncodeInt(v.dec.scale) + EncodeInt(|m|) + m
  }

  /** writeLocalDate: presence flag, then the epoch day as a long. */
  function EncodeDate(v: Value): seq<Byte>
    requires v.Null? || v.DateV?
    decreases KindSize(DateK), 0, 0
  {
    if v.Null? then EncodeBoolean(false)
    else EncodeBoolean(true) + EncodeLong(v.day)
  }

  /** writeDormant: a presence flag, then the nested object's own write. */
  function EncodeNested(fs: seq<Kind>, v: Value): seq<Byte>
    requires Conforms(v, NestedK(fs))
    decreases KindSize(NestedK(fs)), 0, 0
  {
    if v.Null? then EncodeBoolean(false)
    else EncodeBoolean(true) + EncodeFields(fs, v.fields)
  }

  /** writeList: -1 for null, else the size and each element. */
  function EncodeList(e: Kind, v: Value): seq<Byte>
    requires Conforms(v, ListK(e))
    decreases KindSize(ListK(e)), 0, 0
  {
    if v.Null? then EncodeInt(-1)
    else EncodeInt(|v.elems|) + EncodeElems(e, v.elems)
  }

  /** writeMap: -1 for null, else the size and each entry. */
  function EncodeMap(a: Kind, b: Kind, v: Value): seq<Byte>
    requires Conforms(v, MapK(a, b))
    decreases KindSize(MapK(a, b)), 0, 0
  {
    if v.Null? then EncodeInt(-1)
    else EncodeInt(|v.entries|) + EncodeEntries(a, b, v.entries)
  }

  /** The fields one after the other: the body of a Dormant's write(Serde). */
  function EncodeFields(ks: seq<Kind>, vs: seq<Value>): seq<Byte>
    requires ConformsAll(vs, ks)
    decreases KindsSize(ks), 1, 0
  {
    if ks == [] then [] else Encode(ks[0], vs[0]) + EncodeFields(ks[1..], vs[1..])
  }

  /** The elements of a list, in order: the loop of writeList. */
  function EncodeElems(e: Kind, vs: seq<Value>): seq<Byte>
    requires ElemsConform(vs, e)
    decreases KindSize(e), 1, |vs|
  {
    if vs == [] then [] else Encode(e, vs[0]) + EncodeElems(e, vs[1..])
  }

  /** Key then value for each entry, in iteration order: the loop of writeMap. */
  function EncodeEntries(a: Kind, b: Kind, es: seq<Entry>): seq<Byte>
    requires EntriesConform(es, a, b)
    decreases KindSize(a) + KindSize(b), 1, |es|
  {
    if es == [] then [] else EncodeEntry(a, b, es[0]) + EncodeEntries(a, b, es[1..])
  }

  /** One entry: the key, then its value. */
  function EncodeEntry(a: Kind, b: Kind, e: Entry): seq<Byte>
    requires Conforms(e.key, a) && Conforms(e.value, b)
    decreases KindSize(a) + KindSize(b), 1, 0
  {
    Encode(a, e.key) + Encode(b, e.value)
  }

  // ---------------------------------------------------------------------------
  // Reading

  /** readInt over the four bytes at p. */
  function IntAt(s: seq<Byte>, p: nat): Int32
    requires p + 4 <= |s|
  {
    Pow256Values();
    DecodeSigned(s[p..p + 4])
  }

  /** readLong over the eight bytes at p. */
  function LongAt(s: seq<Byte>, p: nat): Int64
    requires p + 8 <= |s|
  {
    Pow256Values();
    DecodeSigned(s[p..p + 8])
  }

  /** readShort over the two bytes at p. */
  function ShortAt(s: seq<Byte>, p: nat): Int16
    requires p + 2 <= |s|
  {
    Pow256Values();
    DecodeSigned(s[p..p + 2])
  }

  /** readByte over the byte at p. */
  function ByteAt(s: seq<Byte>, p: nat): Int8
    requires p + 1 <= |s|
  {
    SignedByte(s[p])
  }

  /** readChar over the two bytes at p: an unsigned code unit. */
  function CharAt(s: seq<Byte>, p: nat): Char16
    requires p + 2 <= |s|
  {
    Pow256Values();
    FromBigEndian(s[p..p + 2])
  }

  /** readBoolean: any non-zero byte reads as true. */
  function BooleanAt(s: seq<Byte>, p: nat): bool
    requires p + 1 <= |s|
  {
    s[p] != 0
  }

  /** The number of bytes each primitive kind occupies. */
  function Width(k: Kind): (w: nat)
    requires !IsReference(k)
  {
    match k
    case IntK => 4
    case LongK => 8
    case FloatK => 4
    case DoubleK => 8
    case BooleanK => 1
    case ByteK => 1
    case ShortK => 2
    case CharK => 2
  }

  /** The read methods for the eight primitive kinds: EOFException when fewer bytes remain. */
  function DecodeScalar(k: Kind, s: seq<Byte>, p: nat): (r: Decoded)
    requires !IsReference(k)
  {
    if |s| < p + Width(k) then Fail(EndOfStream)
    else
      var v := match k
        case IntK => IntV(IntAt(s, p))
        case LongK => LongV(LongAt(s, p))
        case FloatK => FloatV(IntAt(s, p))
        case DoubleK => DoubleV(LongAt(s, p))
        case BooleanK => BooleanV(BooleanAt(s, p))
        case ByteK => ByteV(ByteAt(s, p))
        case ShortK => ShortV(ShortAt(s, p))
        case CharK => CharV(CharAt(s, p));
      Got(v, p + Width(k))
  }

  /** Reads one value of kind k at p. */
  function Decode(k: Kind, s: seq<Byte>, p: nat): (r: Decoded)
    decreases KindSize(k), 0, 1
  {
    match k
    case StringK => DecodeString(s, p)
    case DecimalK => DecodeDecimal(s, p)
    case DateK => DecodeDate(s, p)
    case NestedK(fs) => DecodeNested(fs, s, p)
    case ListK(e) => DecodeList(e, s, p)
    case MapK(a, b) => DecodeMap(a, b, s, p)
    case _ => DecodeScalar(k, s, p)
  }

  /** readString: -1 is null; any other negative length fails allocating the array. */
  function DecodeString(s: seq<Byte>, p: nat): (r: Decoded)
    decreases KindSize(StringK), 0, 0
  {
    match Decode(IntK, s, p)
    case Fail(f) => Fail(f)
    case Got(n, q) =>
      var len := n.i;
      if len == -1 then Got(Null, q)
      else if len < 0 then Fail(NegativeArraySize(len))
      else if |s| < q + len then Fail(EndOfStream)
      else Got(StringV(Utf8.Decode(s[q..q + len])), q + len)
  }

  /** readBigDecimal: flag, scale, magnitude length and magnitude; an empty
      magnitude is refused by the BigInteger constructor. */
  function DecodeDecimal(s: seq<Byte>, p: nat): (r: Decoded)
    decreases KindSize(DecimalK), 0, 0
  {
    match Decode(BooleanK, s, p)
    case Fail(f) => Fail(f)
    case Got(present, q) =>
      if !present.flag then Got(Null, q)
      else
        match Decode(IntK, s, q)
        case Fail(f) => Fail(f)
        case Got(scale, q1) =>
          match Decode(IntK, s, q1)
          case Fail(f) => Fail(f)
          case Got(n, q2) =>
            var len := n.i;
            if len < 0 then Fail(NegativeArraySize(len))
            else if |s| < q2 + len then Fail(EndOfStream)
            else if len == 0 then Fail(EmptyMagnitude)
            else Got(DecimalV(Decimal(DecodeSigned(s[q2..q2 + len]), scale.i)), q2 + len)
  }

  /** readLocalDate: LocalDate.ofEpochDay refuses a day outside the LocalDate range. */
  function DecodeDate(s: seq<Byte>, p: nat): (r: Decoded)
    decreases KindSize(DateK), 0, 0
  {
    match Decode(BooleanK, s, p)
    case Fail(f) => Fail(f)
    case Got(present, q) =>
      if !present.flag then Got(Null, q)
      else
        match Decode(LongK, s, q)
        case Fail(f) => Fail(f)
        case Got(day, q1) =>
          if MIN_EPOCH_DAY <= day.l <= MAX_EPOCH_DAY then Got(DateV(day.l), q1)
          else Fail(DateOutOfRange(day.l))
  }

  /** readDormant: a presence flag, then the nested object's own fields. */
  function DecodeNested(fs: seq<Kind>, s: seq<Byte>, p: nat): (r: Decoded)
    decreases KindSize(NestedK(fs)), 0, 0
  {
    match Decode(BooleanK, s, p)
    case Fail(f) => Fail(f)
    case Got(present, q) =>
      if !present.flag then Got(Null, q)
      else
        match DecodeFields(fs, s, q)
        case FailSeq(f) => Fail(f)
        case GotSeq(vs, q1) => Got(NestedV(vs), q1)
  }

  /** readList: -1 is null; any other negative size is refused by the ArrayList constructor. */
  function DecodeList(e: Kind, s: seq<Byte>, p: nat): (r: Decoded)
    decreases KindSize(ListK(e)), 0, 0
  {
    match Decode(IntK, s, p)
    case Fail(f) => Fail(f)
    case Got(size, q) =>
      var n := size.i;
      if n == -1 then Got(Null, q)
      else if n < 0 then Fail(IllegalCapacity(n))
      else
        match DecodeElems(e, n, s, q)
        case FailSeq(f) => Fail(f)
        case GotSeq(vs, q1) => Got(ListV(vs), q1)
  }

  /** readMap: -1 is null; any other negative size is refused by the HashMap constructor. */
  function DecodeMap(a: Kind, b: Kind, s: seq<Byte>, p: nat): (r: Decoded)
    decreases KindSize(MapK(a, b)), 0, 0
  {
    match Decode(IntK, s, p)
    case Fail(f) => Fail(f)
    case Got(size, q) =>
      var n := size.i;
      if n == -1 then Got(Null, q)
      else if n < 0 then Fail(IllegalCapacity(n))
      else
        match DecodeEntries(a, b, n, s, q)
        case FailEntries(f) => Fail(f)
        case GotEntries(es, q1) => Got(MapV(es), q1)
  }

  /** Reads one value per kind, in order: the body of a Dormant's read(Serde). */
  function DecodeFields(ks: seq<Kind>, s: seq<Byte>, p: nat): (r: DecodedSeq)
    decreases KindsSize(ks), 1, 0
  {
    if ks == [] then GotSeq([], p)
    else
      match Decode(ks[0], s, p)
      case Fail(f) => FailSeq(f)
      case Got(v, q) =>
        match DecodeFields(ks[1..], s, q)
        case FailSeq(f) => FailSeq(f)
        case GotSeq(vs, q1) => GotSeq([v] + vs, q1)
  }

  /** Reads n values of kind e: the loop of readList. */
  function DecodeElems(e: Kind, n: nat, s: seq<Byte>, p: nat): (r: DecodedSeq)
    decreases KindSize(e), 1, n
  {
    if n == 0 then GotSeq([], p)
    else
      match Decode(e, s, p)
      case Fail(f) => FailSeq(f)
      case Got(v, q) =>
        match DecodeElems(e, n - 1, s, q)
        case FailSeq(f) => FailSeq(f)
        case GotSeq(vs, q1) => GotSeq([v] + vs, q1)
  }

  /** Reads one key and then its value. */
  function DecodeEntry(a: Kind, b: Kind, s: seq<Byte>, p: nat): (r: DecodedEntry)
    decreases KindSize(a) + KindSize(b), 1, 0
  {
    match Decode(a, s, p)
    case Fail(f) => FailEntry(f)
    case Got(key, q) =>
      match Decode(b, s, q)
      case Fail(f) => FailEntry(f)
      case Got(val, q1) => GotEntry(key, val, q1)
  }

  /** Reads n key/value pairs: the loop of readMap. */
  function DecodeEntries(a: Kind, b: Kind, n: nat, s: seq<Byte>, p: nat): (r: DecodedEntries)
    decreases KindSize(a) + KindSize(b), 1, n
  {
    if n == 0 then GotEntries([], p)
    else
      match DecodeEntry(a, b, s, p)
      case FailEntry(f) => FailEntries(f)
      case GotEntry(key, val, q) =>
        match DecodeEntries(a, b, n - 1, s, q)
        case FailEntries(f) => FailEntries(f)
        case GotEntries(es, q1) => GotEntries([Entry(key, val)] + es, q1)
  }
}
