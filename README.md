# Dormant serialization, ring buffers and trade positions, in Dafny

This project models the core of a Java repository in three parts and proves
properties of the model.

**The dormant binary serialization framework.** A `Dormant` object writes
itself as an envelope. The envelope is the magic number `0xD0BACAFE`, the
object's type id (the `String.hashCode` of its class name), and then its
fields, each in the wire form of its declared kind.
- `Bytes`, `TwosComplement` and `Utf8` give the byte-level encodings that
  `DataOutputStream`, `BigInteger.toByteArray` and UTF-8 produce.
- `Wire` is the codec. The encoder is driven by the value, and the decoder by
  a schema of field kinds. Each read returns the value and the next position,
  or the exception the Java code raises (`Fault`).
- `WireLaws` proves that every kind reads back what it wrote, whatever bytes
  follow it.
- `Sessions` holds the writer and reader sessions. They are classes over an
  output buffer and over an input cursor, and their methods are proved
  against the `Wire` functions. This includes the `readX(consumer)` forwarding
  of the `Serde` interface.
- `Dormants` models the envelope: `serialize`, `peekTypeId`, `deserialize`,
  `read`, `readExternal` and `writeExternal`. It also models the type-id cache,
  and `equals`/`hashCode` of `AbstractDormant`.
- `Registries` models `DormantRegistry`: the scan over candidate classes,
  `register`, `create` and the polymorphic `deserialize`.
- `Legacy` models the older `BinarySerde` at the repository root: the same
  envelope over fewer kinds, with its own exception wrapping.

**Technical-analysis helpers.**
- `RingBuffers` models the three ring buffers as classes over an array.
- `TrendStates` models the six orderings of three averages.
- `Optionals` models `or`/`and` over lists of optionals.
- `Maps` models the map merge used as a stream combiner.

**The trade side.**
- `Sides` models the sign convention of a trade.
- `Positions` models a position as a list of trades on one instrument, with
  its derived size, side, dates, PnL and average price, and the four position
  predicates.
- `PositionCollectors` models the stream collector that groups trades into
  positions in a date-ordered `TreeMap`.
- `PositionServices` models `buildPositions`, the per-code grouping of
  `getPositionsByMarket`, the filter of `getPositions` and the counts of
  `computePerformanceStats`.
- `TenorRanges`, `DateRanges` and `Valuations` model the date-range parsing
  and resolution and the valuation summary.

Behaviours of the code as written that the model keeps:
- `PositionCollector` keys a new position by instrument and trade date. A
  position reopened on the same date as the opening of an earlier, closed
  position of the same instrument lands on the same `TreeMap` key and replaces
  it, so the earlier trades are lost. `PositionCollectors.SameDateReopenOverwrites`
  states this.
- When two registrable classes share a type id, the registry keeps the first
  one scanned. It only logs the second, and an envelope of the second class is
  then read with the first class's fields (`Registries.CollisionReadsAsFirst`).
- `readBoolean` takes any non-zero byte as true. Every written stream therefore
  reads back, but not every readable stream is one the writer produces
  (`WireLaws.BooleanNotCanonical`).
- `Dormant.read(InputStream)` skips the two header ints without checking them
  (`Dormants.ReadIgnoresHeader`).
- `readFloat` and `readDouble` keep a NaN's payload, but `writeFloat` and
  `writeDouble` write `floatToIntBits` and `doubleToLongBits`, which turn every
  NaN into the canonical one (`WireLaws.NaNPayloadExample`). A value therefore
  reads back with its NaNs canonical (`WireLaws.RoundTrip`), and `equals`, which
  compares `write()` bytes, holds between objects whose fields differ only in
  NaN payloads (`Dormants.EqualsIffSameState`).

Where the repository's description and its code differ, the model follows the
code:
- `DormantRegistry.deserialize` calls `withRegistry` on its session, a method
  the `BinarySerde` of the repository does not define. The model reads with a
  plain session.
- The `Serde` interface declares `Instant`, `LocalDateTime`, byte-array, enum
  and ordinal methods and a factory-less `readDormant()`. `BinarySerde` does
  not implement them, so they have no wire form here.

## Model

| member | source | states |
|---|---|---|
| Bytes.Pow256Values | dormant/src/main/java/io/github/dfauth/dormant/BinarySerde.java:72-109 | the fixed widths of int, short, byte and long are 4, 2, 1 and 8 bytes: 256^n for those n |
| Bytes.FromToBigEndian | dormant/src/main/java/io/github/dfauth/dormant/BinarySerde.java:72-109 | reading back the n-byte big-endian form of an unsigned value gives the value |
| Bytes.ToFromBigEndian | dormant/src/main/java/io/github/dfauth/dormant/BinarySerde.java:153-190 | every byte string is the big-endian form of the value it reads as |
| Bytes.ToUnsigned | dormant/src/main/java/io/github/dfauth/dormant/BinarySerde.java:72-109 | a signed value's two's-complement representative lies below 256^n |
| Bytes.ToSigned | dormant/src/main/java/io/github/dfauth/dormant/BinarySerde.java:153-190 | an n-byte two's-complement reading lies in the signed n-byte range |
| Bytes.EncodeSigned | dormant/src/main/java/io/github/dfauth/dormant/BinarySerde.java:72-109 | writeInt/writeLong/writeShort/writeByte emit exactly n bytes |
| Bytes.DecodeSigned | dormant/src/main/java/io/github/dfauth/dormant/BinarySerde.java:153-190 | readInt/readLong/readShort/readByte give a value in the signed n-byte range |
| Bytes.SignedRoundTrip | dormant/src/main/java/io/github/dfauth/dormant/BinarySerde.java:72-109 | each signed fixed-width read inverts its write |
| Bytes.SignedReencode | dormant/src/main/java/io/github/dfauth/dormant/BinarySerde.java:153-190 | any n bytes are the encoding of the value read from them |
| Bytes.TopBit | dormant/src/main/java/io/github/dfauth/dormant/BinarySerde.java:72-109 | the first byte's top bit is set exactly when the unsigned value is at least half the range |
| Bytes.SignIsTopBit | dormant/src/main/java/io/github/dfauth/dormant/BinarySerde.java:72-109 | a value is negative exactly when the first byte of its encoding has its top bit set |
| Bytes.WrapInt32 | dormant/src/main/java/io/github/dfauth/dormant/Dormant.java:57-59 | narrowing to int keeps the value modulo 2^32 |
| Bytes.WrapInt32Identity | dormant/src/main/java/io/github/dfauth/dormant/Dormant.java:57-59 | narrowing leaves a value already in int range unchanged |
| Bytes.SignedByte | dormant/src/main/java/io/github/dfauth/dormant/AbstractDormant.java:17-20 | Java's byte value of a wire byte is its one-byte two's-complement reading |
| TwosComplement.ByteLength | dormant/src/main/java/io/github/dfauth/dormant/BinarySerde.java:129-130 | toByteArray produces at least one byte |
| TwosComplement.ByteLengthFits | dormant/src/main/java/io/github/dfauth/dormant/BinarySerde.java:129-130 | the value fits the length toByteArray gives it |
| TwosComplement.ByteLengthMinimal | dormant/src/main/java/io/github/dfauth/dormant/BinarySerde.java:129-130 | no shorter two's-complement form holds the value |
| TwosComplement.ToByteArray | dormant/src/main/java/io/github/dfauth/dormant/BinarySerde.java:129-130 | BigInteger.toByteArray has the minimal length |
| TwosComplement.FromByteArray | dormant/src/main/java/io/github/dfauth/dormant/BinarySerde.java:208-210 | new BigInteger(bytes) refuses exactly the empty array |
| TwosComplement.ByteArrayRoundTrip | dormant/src/main/java/io/github/dfauth/dormant/BinarySerde.java:129-130 | new BigInteger(x.toByteArray()) is x |
| Utf8.EncodeCodePoint | dormant/src/main/java/io/github/dfauth/dormant/BinarySerde.java:117 | a code point takes one to four bytes, and one byte exactly when it is ASCII |
| Utf8.Encode | dormant/src/main/java/io/github/dfauth/dormant/BinarySerde.java:117 | the UTF-8 form is at least as long as the text |
| Utf8.EncodedLengthIsLength | dormant/src/main/java/io/github/dfauth/dormant/BinarySerde.java:117-118 | the length prefix writeString puts out is the sum of the code points' widths |
| Utf8.DecodeOne | dormant/src/main/java/io/github/dfauth/dormant/BinarySerde.java:199 | decoding one character consumes between one byte and what is left |
| Utf8.Decode | dormant/src/main/java/io/github/dfauth/dormant/BinarySerde.java:199 | new String(bytes, UTF_8) has at most as many code points as bytes |
| Utf8.DecodeOneEncoded | dormant/src/main/java/io/github/dfauth/dormant/BinarySerde.java:199 | the first character of an encoding decodes to its code point and consumes its bytes (the writing side at line 117) |
| Utf8.DecodeTwo | dormant/src/main/java/io/github/dfauth/dormant/BinarySerde.java:199 | a two-byte form decodes to its code point |
| Utf8.DecodeThree | dormant/src/main/java/io/github/dfauth/dormant/BinarySerde.java:199 | a three-byte form decodes to its code point |
| Utf8.DecodeFour | dormant/src/main/java/io/github/dfauth/dormant/BinarySerde.java:199 | a four-byte form decodes to its code point |
| Utf8.DecodeEncode | dormant/src/main/java/io/github/dfauth/dormant/BinarySerde.java:199 | decoding the UTF-8 form of any text gives back the text (the writing side at line 117) |
| Utf8.EncodeInjective | dormant/src/main/java/io/github/dfauth/dormant/BinarySerde.java:117 | different texts have different UTF-8 forms |
| Wire.KeysOf | dormant/src/main/java/io/github/dfauth/dormant/BinarySerde.java:276-280 | one key per written entry |
| Wire.EncodeInt | dormant/src/main/java/io/github/dfauth/dormant/BinarySerde.java:72-74 | writeInt emits 4 bytes |
| Wire.EncodeLong | dormant/src/main/java/io/github/dfauth/dormant/BinarySerde.java:77-79 | writeLong emits 8 bytes |
| Wire.EncodeShort | dormant/src/main/java/io/github/dfauth/dormant/BinarySerde.java:102-104 | writeShort emits 2 bytes |
| Wire.EncodeByte | dormant/src/main/java/io/github/dfauth/dormant/BinarySerde.java:97-99 | writeByte emits 1 byte |
| Wire.EncodeChar | dormant/src/main/java/io/github/dfauth/dormant/BinarySerde.java:107-109 | writeChar emits 2 bytes |
| Wire.EncodeBoolean | dormant/src/main/java/io/github/dfauth/dormant/BinarySerde.java:92-94 | writeBoolean emits one byte, non-zero exactly for true |
| Wire.FloatToIntBits | dormant/src/main/java/io/github/dfauth/dormant/BinarySerde.java:82-84 | Float.floatToIntBits, which writeFloat applies through DataOutputStream: every non-NaN pattern kept, every NaN sent to 0x7FC00000 (WireLaws.CanonicalNaNs) |
| Wire.DoubleToLongBits | dormant/src/main/java/io/github/dfauth/dormant/BinarySerde.java:87-89 | Double.doubleToLongBits, which writeDouble applies: every non-NaN pattern kept, every NaN sent to 0x7FF8000000000000 (WireLaws.CanonicalNaNs) |
| Wire.EncodeScalar | dormant/src/main/java/io/github/dfauth/dormant/BinarySerde.java:72-109 | the eight primitive writes at their fixed big-endian widths, floats and doubles after floatToIntBits/doubleToLongBits; inverted by DecodeScalar up to NaN payloads (WireLaws.ScalarRoundTrip, WireLaws.NaNPayloadExample) |
| Wire.DecodeScalar | dormant/src/main/java/io/github/dfauth/dormant/BinarySerde.java:153-190 | the eight primitive reads: EOFException when fewer bytes than the width remain, else the big-endian value with raw float bits; every byte string of the width is some value's form (WireLaws.ScalarRoundTrip, WireLaws.IntReencode, WireLaws.BooleanNotCanonical) |
| Wire.Encode | dormant/src/main/java/io/github/dfauth/dormant/BinarySerde.java:71-300 | what the write method for a field of a kind appends, dispatching on the kind; inverted by Decode (WireLaws.RoundTrip) and the same for values equal up to NaN payloads (WireLaws.EncodeSameCanon) |
| Wire.Decode | dormant/src/main/java/io/github/dfauth/dormant/BinarySerde.java:151-300 | what the read method for a kind returns and where it stops, or its fault; reads back every encoding (WireLaws.RoundTrip) |
| Wire.EncodeString | dormant/src/main/java/io/github/dfauth/dormant/BinarySerde.java:112-122 | writeString: -1 for null, else the UTF-8 byte count then the bytes (WireLaws.StringRoundTrip) |
| Wire.DecodeString | dormant/src/main/java/io/github/dfauth/dormant/BinarySerde.java:193-201 | readString: null for -1, NegativeArraySizeException for any other negative length, EOF for a short stream, else the UTF-8 decoding (WireLaws.StringRoundTrip, WireLaws.StringAt) |
| Wire.EncodeDecimal | dormant/src/main/java/io/github/dfauth/dormant/BinarySerde.java:125-133 | writeBigDecimal: false for null, else true, the scale, the magnitude length and the toByteArray magnitude (WireLaws.DecimalLayout, WireLaws.DecimalRoundTrip) |
| Wire.DecodeDecimal | dormant/src/main/java/io/github/dfauth/dormant/BinarySerde.java:204-213 | readBigDecimal: null for a false flag, a negative length refused, an empty magnitude refused by new BigInteger, else the decimal (WireLaws.DecimalAt, WireLaws.DecimalRoundTrip) |
| Wire.EncodeDate | dormant/src/main/java/io/github/dfauth/dormant/BinarySerde.java:136-141 | writeLocalDate: false for null, else true then the epoch day as a long (WireLaws.DateRoundTrip) |
| Wire.DecodeDate | dormant/src/main/java/io/github/dfauth/dormant/BinarySerde.java:216-221 | readLocalDate: null for a false flag, a day outside the LocalDate range refused by ofEpochDay, else the date (WireLaws.DateRoundTrip) |
| Wire.EncodeNested | dormant/src/main/java/io/github/dfauth/dormant/BinarySerde.java:144-149 | writeDormant: false for null, else true then the nested object's fields with no envelope (WireLaws.NestedRoundTrip) |
| Wire.DecodeNested | dormant/src/main/java/io/github/dfauth/dormant/BinarySerde.java:224-231 | readDormant: null for a false flag, else the nested object's fields read in order (WireLaws.NestedRoundTrip, Legacy.AbsentNestedIsNull) |
| Wire.EncodeList | dormant/src/main/java/io/github/dfauth/dormant/BinarySerde.java:234-248 | writeList: -1 for null, else the size then each element in order (WireLaws.ListRoundTrip) |
| Wire.DecodeList | dormant/src/main/java/io/github/dfauth/dormant/BinarySerde.java:251-264 | readList: null for -1, IllegalArgumentException of new ArrayList for any other negative size, else that many elements (WireLaws.ListRoundTrip, WireLaws.DecodeListAt) |
| Wire.EncodeMap | dormant/src/main/java/io/github/dfauth/dormant/BinarySerde.java:267-282 | writeMap: -1 for null, else the size then each key and value in iteration order (WireLaws.MapRoundTrip) |
| Wire.DecodeMap | dormant/src/main/java/io/github/dfauth/dormant/BinarySerde.java:285-300 | readMap: null for -1, IllegalArgumentException of new HashMap for any other negative size, else that many entries (WireLaws.MapRoundTrip, WireLaws.DecodeMapAt) |
| Wire.EncodeFields | dormant/src/main/java/io/github/dfauth/dormant/Serde.java:27-44 | a Dormant's write(Serde): each field in its kind's wire form, in declaration order (WireLaws.RoundTripFields) |
| Wire.DecodeFields | dormant/src/main/java/io/github/dfauth/dormant/Serde.java:47-129 | a Dormant's read(Serde): each kind read in order, stopping at the first fault (WireLaws.RoundTripFields, Dormants.AfterReadFault) |
| WireLaws.IntRoundTrip | dormant/src/main/java/io/github/dfauth/dormant/BinarySerde.java:153-155 | readInt over the bytes writeInt wrote gives the int (the writing side at lines 72-74) |
| WireLaws.LongRoundTrip | dormant/src/main/java/io/github/dfauth/dormant/BinarySerde.java:158-160 | readLong over the bytes writeLong wrote gives the long (the writing side at lines 77-79) |
| WireLaws.ShortRoundTrip | dormant/src/main/java/io/github/dfauth/dormant/BinarySerde.java:183-185 | readShort over the bytes writeShort wrote gives the short (the writing side at lines 102-104) |
| WireLaws.ByteRoundTrip | dormant/src/main/java/io/github/dfauth/dormant/BinarySerde.java:178-180 | readByte over the bytes writeByte wrote gives the byte (the writing side at lines 97-99) |
| WireLaws.CharRoundTrip | dormant/src/main/java/io/github/dfauth/dormant/BinarySerde.java:188-190 | readChar over the bytes writeChar wrote gives the char (the writing side at lines 107-109) |
| WireLaws.IntField | dormant/src/main/java/io/github/dfauth/dormant/BinarySerde.java:153-155 | an int field reads back and the read moves 4 bytes on (the writing side at lines 72-74) |
| WireLaws.LongField | dormant/src/main/java/io/github/dfauth/dormant/BinarySerde.java:158-160 | a long field reads back and the read moves 8 bytes on (the writing side at lines 77-79) |
| WireLaws.BooleanField | dormant/src/main/java/io/github/dfauth/dormant/BinarySerde.java:173-175 | a boolean field reads back and the read moves 1 byte on (the writing side at lines 92-94) |
| WireLaws.IntReencode | dormant/src/main/java/io/github/dfauth/dormant/BinarySerde.java:153-155 | any four bytes are the writeInt form of the int read from them |
| WireLaws.BooleanNotCanonical | dormant/src/main/java/io/github/dfauth/dormant/BinarySerde.java:173-175 | the byte 2 reads as true, but writing true does not produce it |
| WireLaws.RoundTrip | dormant/src/main/java/io/github/dfauth/dormant/BinarySerde.java:71-300 | any value of any kind reads back with the kind it was written with, consuming exactly its bytes, whatever follows; what comes back is the value with every float and double NaN canonical (Canon), since writeFloat and writeDouble canonicalise NaNs and the reads keep the bits written |
| WireLaws.LeafRoundTrip | dormant/src/main/java/io/github/dfauth/dormant/BinarySerde.java:153-221 | a primitive, string, decimal or date reads back as written, a NaN canonical, and consumes exactly its bytes (the writing side at lines 72-141) |
| WireLaws.ScalarRoundTrip | dormant/src/main/java/io/github/dfauth/dormant/BinarySerde.java:153-190 | each of the eight primitive kinds reads back and consumes exactly its fixed width; a float or double comes back as floatToIntBits or doubleToLongBits of the value written (the writing side at lines 72-109) |
| WireLaws.StringRoundTrip | dormant/src/main/java/io/github/dfauth/dormant/BinarySerde.java:193-201 | null (length -1) and every string, the empty one included, read back as written (the writing side at lines 112-122) |
| WireLaws.StringAt | dormant/src/main/java/io/github/dfauth/dormant/BinarySerde.java:193-201 | a length prefix and that many bytes read as the UTF-8 decoding of those bytes |
| WireLaws.DecimalRoundTrip | dormant/src/main/java/io/github/dfauth/dormant/BinarySerde.java:204-213 | null (a false flag) and every decimal read back with the same unscaled value and scale (the writing side at lines 125-133) |
| WireLaws.DecimalLayout | dormant/src/main/java/io/github/dfauth/dormant/BinarySerde.java:125-133 | a decimal is a true flag, the scale, the magnitude length and the magnitude, in that order |
| WireLaws.DecimalAt | dormant/src/main/java/io/github/dfauth/dormant/BinarySerde.java:204-213 | flag, scale, a positive length and that many two's-complement bytes read as that decimal |
| WireLaws.DateRoundTrip | dormant/src/main/java/io/github/dfauth/dormant/BinarySerde.java:216-221 | null and every date in LocalDate's range read back (the writing side at lines 136-141) |
| WireLaws.NestedRoundTrip | dormant/src/main/java/io/github/dfauth/dormant/BinarySerde.java:224-231 | a nested object, its flag then its fields with no envelope, reads back with its NaNs canonical, and null stays null (the writing side at lines 144-149) |
| WireLaws.ListRoundTrip | dormant/src/main/java/io/github/dfauth/dormant/BinarySerde.java:234-264 | a list reads back with the same elements in the same order, their NaNs canonical, and null (-1) stays null |
| WireLaws.MapRoundTrip | dormant/src/main/java/io/github/dfauth/dormant/BinarySerde.java:267-300 | a map reads back with the same entries in iteration order, their NaNs canonical, and null (-1) stays null |
| WireLaws.DecodeListAt | dormant/src/main/java/io/github/dfauth/dormant/BinarySerde.java:251-264 | readList over a size and the elements writeList put after it returns exactly those elements, NaNs canonical, and stops right after them |
| WireLaws.DecodeMapAt | dormant/src/main/java/io/github/dfauth/dormant/BinarySerde.java:285-300 | readMap over a size and the entries writeMap put after it returns exactly those entries, NaNs canonical, and stops right after them |
| WireLaws.RoundTripFields | dormant/src/main/java/io/github/dfauth/dormant/Serde.java:27-44 | a read that mirrors its write's kinds in order gets every field back, NaNs canonical |
| WireLaws.RoundTripElems | dormant/src/main/java/io/github/dfauth/dormant/BinarySerde.java:243-262 | the loop of readList reads back what the loop of writeList wrote |
| WireLaws.RoundTripHead | dormant/src/main/java/io/github/dfauth/dormant/BinarySerde.java:243-262 | the first pass of readList's loop reads the first element writeList wrote, and the rest of the elements follow it |
| WireLaws.RoundTripEntry | dormant/src/main/java/io/github/dfauth/dormant/BinarySerde.java:278-296 | a key then its value read back |
| WireLaws.RoundTripEntriesHead | dormant/src/main/java/io/github/dfauth/dormant/BinarySerde.java:276-298 | the first pass of readMap's loop reads the first entry writeMap wrote, and the rest of the entries follow it |
| WireLaws.RoundTripEntries | dormant/src/main/java/io/github/dfauth/dormant/BinarySerde.java:276-298 | the loop of readMap reads back every entry the loop of writeMap wrote |
| WireLaws.CanonicalNaNs | dormant/src/main/java/io/github/dfauth/dormant/BinarySerde.java:82-89 | floatToIntBits and doubleToLongBits, which writeFloat and writeDouble apply, keep every non-NaN pattern, send every NaN to 0x7fc00000 or 0x7ff8000000000000 (both NaNs), and are idempotent |
| WireLaws.NaNPayloadExample | dormant/src/main/java/io/github/dfauth/dormant/BinarySerde.java:163-165 | readFloat keeps the payload of 7F C0 00 01, and writeFloat writes that NaN back as 7F C0 00 00 (the writing side at lines 82-84) |
| WireLaws.EncodeSameCanon | dormant/src/main/java/io/github/dfauth/dormant/BinarySerde.java:82-89 | two values of a kind with the same canonical form are written as the same bytes, at any depth of nesting |
| WireLaws.FieldsSameCanon | dormant/src/main/java/io/github/dfauth/dormant/Serde.java:27-44 | fields with the same canonical forms are written as the same bytes |
| WireLaws.ElemsSameCanon | dormant/src/main/java/io/github/dfauth/dormant/BinarySerde.java:234-248 | list elements with the same canonical forms are written as the same bytes |
| WireLaws.EntriesSameCanon | dormant/src/main/java/io/github/dfauth/dormant/BinarySerde.java:267-282 | map entries with the same canonical forms are written as the same bytes |
| Sessions.WriterSession.constructor | dormant/src/main/java/io/github/dfauth/dormant/BinarySerde.java:26-28 | a new session has written nothing |
| Sessions.WriterSession.WriteScalar | dormant/src/main/java/io/github/dfauth/dormant/BinarySerde.java:72-109 | the eight primitive writes append exactly their wire form; writeFloat and writeDouble append floatToIntBits and doubleToLongBits, so every NaN goes out as the canonical NaN |
| Sessions.WriterSession.WriteInt | dormant/src/main/java/io/github/dfauth/dormant/BinarySerde.java:72-74 | writeInt appends the int's four bytes |
| Sessions.WriterSession.WriteBoolean | dormant/src/main/java/io/github/dfauth/dormant/BinarySerde.java:92-94 | writeBoolean appends the flag's byte |
| Sessions.WriterSession.WriteString | dormant/src/main/java/io/github/dfauth/dormant/BinarySerde.java:112-122 | writeString appends -1 for null, else the UTF-8 length and bytes |
| Sessions.WriterSession.WriteDecimal | dormant/src/main/java/io/github/dfauth/dormant/BinarySerde.java:125-133 | writeBigDecimal appends flag, scale, length and magnitude |
| Sessions.WriterSession.WriteDate | dormant/src/main/java/io/github/dfauth/dormant/BinarySerde.java:136-141 | writeLocalDate appends flag then the epoch day |
| Sessions.WriterSession.Write | dormant/src/main/java/io/github/dfauth/dormant/Serde.java:27-44 | the write method of a kind appends that kind's wire form |
| Sessions.WriterSession.WriteFields | dormant/src/main/java/io/github/dfauth/dormant/Serde.java:27-44 | a Dormant's write(Serde) appends its fields in order |
| Sessions.WriterSession.WriteNested | dormant/src/main/java/io/github/dfauth/dormant/BinarySerde.java:144-149 | writeDormant appends the flag and the object's own fields |
| Sessions.WriterSession.WriteElems | dormant/src/main/java/io/github/dfauth/dormant/BinarySerde.java:243-246 | writeList's loop appends each element in order |
| Sessions.WriterSession.WriteList | dormant/src/main/java/io/github/dfauth/dormant/BinarySerde.java:234-248 | writeList appends -1 for null, else the size and the elements |
| Sessions.WriterSession.WriteEntry | dormant/src/main/java/io/github/dfauth/dormant/BinarySerde.java:278-279 | one pass of writeMap's loop appends the key then the value |
| Sessions.WriterSession.WriteEntries | dormant/src/main/java/io/github/dfauth/dormant/BinarySerde.java:276-280 | writeMap's loop appends the entries in iteration order |
| Sessions.WriterSession.WriteMap | dormant/src/main/java/io/github/dfauth/dormant/BinarySerde.java:267-282 | writeMap appends -1 for null, else the size and the entries |
| Sessions.ElemsStep | dormant/src/main/java/io/github/dfauth/dormant/BinarySerde.java:259-262 | one more element read in readList's loop is appended to those read so far, and a failing read ends the loop |
| Sessions.EntriesStep | dormant/src/main/java/io/github/dfauth/dormant/BinarySerde.java:293-298 | one more entry read in readMap's loop is appended to those read so far, and a failing read ends the loop |
| Sessions.Consumer.constructor | dormant/src/main/java/io/github/dfauth/dormant/Serde.java:47-51 | a consumer starts having accepted nothing |
| Sessions.ReaderSession.constructor | dormant/src/main/java/io/github/dfauth/dormant/BinarySerde.java:30-32 | a new reader session starts at the first byte |
| Sessions.ReaderSession.ReadScalar | dormant/src/main/java/io/github/dfauth/dormant/BinarySerde.java:153-190 | each primitive read returns what the codec decodes and moves past it, or the EOF fault |
| Sessions.ReaderSession.ReadString | dormant/src/main/java/io/github/dfauth/dormant/BinarySerde.java:193-201 | readString returns null for -1, refuses another negative length, else the decoded text |
| Sessions.ReaderSession.ReadDecimal | dormant/src/main/java/io/github/dfauth/dormant/BinarySerde.java:204-213 | readBigDecimal returns null for a false flag, else the decimal read from scale, length and bytes |
| Sessions.ReaderSession.ReadDate | dormant/src/main/java/io/github/dfauth/dormant/BinarySerde.java:216-221 | readLocalDate returns null for a false flag, else the epoch day's date |
| Sessions.ReaderSession.Read | dormant/src/main/java/io/github/dfauth/dormant/Serde.java:47-129 | the read method of a kind returns what the codec decodes for that kind |
| Sessions.ReaderSession.ReadFields | dormant/src/main/java/io/github/dfauth/dormant/Serde.java:27-44 | a Dormant's read(Serde) reads its kinds in order, stopping at the first failure |
| Sessions.ReaderSession.ReadNested | dormant/src/main/java/io/github/dfauth/dormant/BinarySerde.java:224-231 | readDormant returns null when the flag is false, else a new object filled by its own read |
| Sessions.ReaderSession.ReadElems | dormant/src/main/java/io/github/dfauth/dormant/BinarySerde.java:259-262 | readList's loop reads n elements in order |
| Sessions.ReaderSession.ReadList | dormant/src/main/java/io/github/dfauth/dormant/BinarySerde.java:251-264 | readList returns null for -1, refuses another negative size, else the elements in order |
| Sessions.ReaderSession.ReadEntry | dormant/src/main/java/io/github/dfauth/dormant/BinarySerde.java:295-296 | one pass of readMap's loop reads a key then its value |
| Sessions.ReaderSession.ReadEntries | dormant/src/main/java/io/github/dfauth/dormant/BinarySerde.java:293-298 | readMap's loop reads n entries in order |
| Sessions.ReaderSession.ReadMap | dormant/src/main/java/io/github/dfauth/dormant/BinarySerde.java:285-300 | readMap returns null for -1, refuses another negative size, else the entries |
| Sessions.ReaderSession.ReadInto | dormant/src/main/java/io/github/dfauth/dormant/Serde.java:47-167 | each readX(consumer) hands the consumer exactly what readX returns and returns the same session, and a failing read reaches no consumer |
| Dormants.MagicBytes | dormant/src/main/java/io/github/dfauth/dormant/BinarySerde.java:21 | the magic number goes out as D0 BA CA FE |
| Dormants.SignedBytes | dormant/src/main/java/io/github/dfauth/dormant/AbstractDormant.java:17-20 | Java's byte values of the written bytes, one for one |
| Dormants.PolynomialSnoc | dormant/src/main/java/io/github/dfauth/dormant/Dormant.java:57-59 | one more character multiplies the hash sum by 31 and adds the character |
| Dormants.WrapShift | dormant/src/main/java/io/github/dfauth/dormant/Dormant.java:57-59 | int overflow forgets multiples of 2^32 |
| Dormants.WrapStep | dormant/src/main/java/io/github/dfauth/dormant/Dormant.java:57-59 | wrapping at each step of h = 31*h + c is wrapping once at the end |
| Dormants.HashLoopIsPolynomial | dormant/src/main/java/io/github/dfauth/dormant/Dormant.java:57-59 | the wrapping hash loop is the seeded polynomial narrowed to int |
| Dormants.StringHashCodeIsPolynomial | dormant/src/main/java/io/github/dfauth/dormant/Dormant.java:50-55 | the type id is the sum of s[i]*31^(n-1-i) narrowed to int |
| Dormants.ArraysHashCodeIsPolynomial | dormant/src/main/java/io/github/dfauth/dormant/AbstractDormant.java:17-20 | Arrays.hashCode of the write() bytes is 31^n plus the sum of b[i]*31^(n-1-i), narrowed to int |
| Dormants.StringHashCode | dormant/src/main/java/io/github/dfauth/dormant/Dormant.java:50-55 | String.hashCode of the class name, h = 31*h + c in int arithmetic (Dormants.StringHashCodeIsPolynomial) |
| Dormants.TypeIdOf | dormant/src/main/java/io/github/dfauth/dormant/Dormant.java:57-59 | typeId(): the hash code of the class name (Dormants.TypeIdCache.Get, Dormants.PeekTypeIdRoundTrip) |
| Dormants.Serialize | dormant/src/main/java/io/github/dfauth/dormant/BinarySerde.java:39-46 | serialize: the magic, the type id, then the fields (Dormants.SerializeLayout, Dormants.DeserializeRoundTrip, Dormants.SerializeInjective) |
| Dormants.PeekTypeId | dormant/src/main/java/io/github/dfauth/dormant/BinarySerde.java:48-55 | peekTypeId: the second int once the first is the magic number, else IllegalArgumentException (Dormants.PeekTypeIdRoundTrip, Dormants.BadMagicRefused) |
| Dormants.Deserialize | dormant/src/main/java/io/github/dfauth/dormant/BinarySerde.java:57-68 | deserialize: magic then type id checked before any field is read, then the fields (Dormants.DeserializeRoundTrip, Dormants.DeserializeWrongClass, Dormants.BadMagicRefused) |
| Dormants.SerializeLayout | dormant/src/main/java/io/github/dfauth/dormant/BinarySerde.java:39-46 | an envelope is the magic number, then the type id, then the fields |
| Dormants.SerializeStartsWithMagic | dormant/src/main/java/io/github/dfauth/dormant/BinarySerde.java:21-46 | an envelope starts with D0 BA CA FE and then the type id's bytes |
| Dormants.PeekTypeIdRoundTrip | dormant/src/main/java/io/github/dfauth/dormant/BinarySerde.java:48-55 | peekTypeId of an envelope is its class's type id |
| Dormants.DeserializeRoundTrip | dormant/src/main/java/io/github/dfauth/dormant/BinarySerde.java:39-68 | deserialize restores the fields serialize wrote, with their NaNs canonical |
| Dormants.DeserializeWrongClass | dormant/src/main/java/io/github/dfauth/dormant/BinarySerde.java:63-66 | an envelope read as a class with another id is refused with both ids before any field is read |
| Dormants.BadMagicRefused | dormant/src/main/java/io/github/dfauth/dormant/BinarySerde.java:48-62 | a wrong first int is refused by both peekTypeId and deserialize |
| Dormants.ReadIgnoresHeader | dormant/src/main/java/io/github/dfauth/dormant/Dormant.java:43-48 | read(InputStream) skips any eight header bytes unchecked and reads the fields |
| Dormants.ReadWriteRoundTrip | dormant/src/main/java/io/github/dfauth/dormant/Dormant.java:23-48 | read(write()) restores the fields, with their NaNs canonical |
| Dormants.SerializeInjective | dormant/src/main/java/io/github/dfauth/dormant/BinarySerde.java:39-46 | two envelopes of one class are equal exactly when the fields are equal up to the payloads of their NaNs (the same canonical form) |
| Dormants.ExternalRoundTrip | dormant/src/main/java/io/github/dfauth/dormant/Dormant.java:6-19 | readExternal reads back what writeExternal wrote, NaNs canonical, and stops right after it |
| Dormants.ReadExternalOf | dormant/src/main/java/io/github/dfauth/dormant/Dormant.java:13-19 | readExternal over a length prefix and a byte string reads the fields read(bytes) reads from it and stops after it |
| Dormants.RecordRoundTrip | dormant/src/main/java/io/github/dfauth/dormant/BinarySerde.java:39-68 | a record with every kind, nested, list and map included, survives the envelope, its double canonical |
| Dormants.AfterRead | dormant/src/test/java/io/github/dfauth/dormant/DormantTest.java:375-391 | the fields after read(Serde)'s consumer chain: every decoded field when the read succeeds, otherwise the fields before the fault assigned and the rest as they were |
| Dormants.AfterReadFault | dormant/src/main/java/io/github/dfauth/dormant/Serde.java:47-50 | a failing read has decoded the fields before some field j, field j raises the read's fault right after them, and fields j onward keep their old values |
| Dormants.ReadAssigns | dormant/src/main/java/io/github/dfauth/dormant/Dormant.java:43-48 | read(bytes) assigns nothing without both header ints; when it succeeds the fields are what it read |
| Dormants.PartialReadExample | dormant/src/main/java/io/github/dfauth/dormant/Dormant.java:43-48 | an int field and a string field read from the int 7 and the string length -2 end with NegativeArraySizeException, the int field already 7 and the string field as it was |
| Dormants.ExternalPayload | dormant/src/main/java/io/github/dfauth/dormant/Dormant.java:13-19 | readExternal's framing: a length, then exactly that many bytes from the stream, and the position after them |
| Dormants.DormantObject.constructor | dormant/src/main/java/io/github/dfauth/dormant/AbstractDormant.java:8-9 | a new object of a class holds the given field values |
| Dormants.DormantObject.WriteTo | dormant/src/main/java/io/github/dfauth/dormant/Serde.java:27-44 | write(Serde) appends the fields in their kinds' wire forms |
| Dormants.DormantObject.Write | dormant/src/main/java/io/github/dfauth/dormant/Dormant.java:23-34 | write() returns exactly what write(OutputStream) puts on a fresh buffer: the envelope |
| Dormants.DormantObject.ReadFrom | dormant/src/main/java/io/github/dfauth/dormant/Serde.java:47-129 | read(Serde) assigns each field as soon as it is decoded: on success the fields are what the session decodes, and a fault at a field leaves the fields before it read and the rest as they were (AfterRead) |
| Dormants.DormantObject.Read | dormant/src/main/java/io/github/dfauth/dormant/Dormant.java:38-48 | read(bytes) reads the two header ints unchecked, then the fields field by field; a short header assigns nothing, and a fault among the fields keeps the fields already assigned |
| Dormants.DormantObject.DeserializeFrom | dormant/src/main/java/io/github/dfauth/dormant/BinarySerde.java:57-68 | deserialize checks magic and type id and assigns nothing when either fails; after them the fields are read field by field, and a fault among them keeps the fields already assigned |
| Dormants.DormantObject.WriteExternal | dormant/src/main/java/io/github/dfauth/dormant/Dormant.java:6-11 | writeExternal writes the length of write() and then its bytes |
| Dormants.DormantObject.ReadExternal | dormant/src/main/java/io/github/dfauth/dormant/Dormant.java:13-19 | readExternal reads a length, exactly that many bytes, and the fields from them; a fault in the framing assigns nothing, and a fault among the fields keeps the fields already assigned |
| Dormants.EqualsIffSameState | dormant/src/main/java/io/github/dfauth/dormant/AbstractDormant.java:11-15 | equals holds exactly for the same object, or a non-null object of the same class whose fields are the same up to NaN payloads (same write() bytes) |
| Dormants.DormantObject.Equals | dormant/src/main/java/io/github/dfauth/dormant/AbstractDormant.java:11-15 | equals: the same object, or a non-null object of the same class with the same write() bytes (Dormants.EqualsIffSameState, Dormants.EqualsEquivalence) |
| Dormants.DormantObject.HashCode | dormant/src/main/java/io/github/dfauth/dormant/AbstractDormant.java:17-20 | hashCode: Arrays.hashCode of the write() bytes (Dormants.ArraysHashCodeIsPolynomial, Dormants.HashCodeConsistent) |
| Dormants.EqualsEquivalence | dormant/src/main/java/io/github/dfauth/dormant/AbstractDormant.java:11-15 | equals is reflexive, symmetric and transitive |
| Dormants.HashCodeConsistent | dormant/src/main/java/io/github/dfauth/dormant/AbstractDormant.java:11-20 | equal objects have equal hash codes |
| Dormants.TypeIdCache.constructor | dormant/src/main/java/io/github/dfauth/dormant/Dormant.java:50-55 | the cache starts empty |
| Dormants.TypeIdCache.Get | dormant/src/main/java/io/github/dfauth/dormant/Dormant.java:50-59 | typeId() is the hash code of the class name, the same on every call, and is kept in the cache |
| Registries.RegisterCheck | dormant/src/main/java/io/github/dfauth/dormant/DormantRegistry.java:50-60 | register refuses exactly abstract classes, interfaces and classes without a no-arg constructor, each with its own error |
| Registries.FirstWithId | dormant/src/main/java/io/github/dfauth/dormant/DormantRegistry.java:33-47 | the class found for an id is a registrable scanned class with that id |
| Registries.Create | dormant/src/main/java/io/github/dfauth/dormant/DormantRegistry.java:75-81 | create succeeds exactly for a registered id, with its class, and otherwise fails naming the id |
| Registries.Registered | dormant/src/main/java/io/github/dfauth/dormant/DormantRegistry.java:64-66 | putIfAbsent of the class under its type id (Registries.RegisteredFirstWins, Registries.RegisterTwice) |
| Registries.RegisterLog | dormant/src/main/java/io/github/dfauth/dormant/DormantRegistry.java:66-72 | the collision warning, logged only when the id is taken by a different class name (Registries.CollisionFirstWins, Registries.ScanQuiet) |
| Registries.Scanned | dormant/src/main/java/io/github/dfauth/dormant/DormantRegistry.java:33-47 | the factories after the constructor's loop over the scanned classes, skipping abstract classes, interfaces and refusals (Registries.ScanContents, Registries.ScanConsistent) |
| Registries.ScanLog | dormant/src/main/java/io/github/dfauth/dormant/DormantRegistry.java:33-47 | what that loop logs, class by class: a refusal or a collision (Registries.CollisionFirstWins, Registries.ScanQuiet) |
| Registries.RegistryDeserialize | dormant/src/main/java/io/github/dfauth/dormant/DormantRegistry.java:83-95 | deserialize: the magic checked, the type id picks the class by create, then its fields are read (Registries.RegistryDeserializeAgrees, Registries.RegistryRoundTrip, Registries.UnknownTypeIdRefused) |
| Registries.RegisteredFirstWins | dormant/src/main/java/io/github/dfauth/dormant/DormantRegistry.java:63-66 | register keeps every factory, adds the class only under a free id, and keeps the registry consistent |
| Registries.RegisterTwice | dormant/src/main/java/io/github/dfauth/dormant/DormantRegistry.java:63-72 | registering the same class again changes nothing |
| Registries.FirstWithIdSnoc | dormant/src/main/java/io/github/dfauth/dormant/DormantRegistry.java:34-46 | a later class is found for an id only when no earlier one was |
| Registries.ScanContents | dormant/src/main/java/io/github/dfauth/dormant/DormantRegistry.java:33-47 | after the scan an id maps to its earlier class or to the first registrable scanned class with it |
| Registries.ScanConsistent | dormant/src/main/java/io/github/dfauth/dormant/DormantRegistry.java:33-47 | the scan keeps every factory under its own class's type id |
| Registries.CollisionFirstWins | dormant/src/main/java/io/github/dfauth/dormant/DormantRegistry.java:66-71 | two classes with one id: the first scanned stays and the second is logged as a collision |
| Registries.ScanQuiet | dormant/src/main/java/io/github/dfauth/dormant/DormantRegistry.java:33-71 | a scan of constructible classes without cross-name collisions logs nothing |
| Registries.RegistryDeserializeAgrees | dormant/src/main/java/io/github/dfauth/dormant/DormantRegistry.java:83-95 | deserialize is the magic check, then create, then the class's own read over the rest |
| Registries.RegistryRoundTrip | dormant/src/main/java/io/github/dfauth/dormant/DormantRegistry.java:83-95 | an envelope of a registered class comes back as that class with its fields, NaNs canonical |
| Registries.ScannedRoundTrip | dormant/src/main/java/io/github/dfauth/dormant/DormantRegistry.java:83-95 | after a scan, each class without a collision reads back as its own concrete class (the scan at lines 27-48) |
| Registries.FirstWithIdFindsMember | dormant/src/main/java/io/github/dfauth/dormant/DormantRegistry.java:33-47 | every registrable scanned class has some class registered under its id |
| Registries.CollisionReadsAsFirst | dormant/src/main/java/io/github/dfauth/dormant/DormantRegistry.java:66-93 | under a collision an envelope of the second class is read as the first class |
| Registries.UnknownTypeIdRefused | dormant/src/test/java/io/github/dfauth/dormant/DormantRegistryTest.java:39-57 | the magic number followed by 0x7FFFFFFF is refused as an unknown id |
| Registries.MaxIntBytes | dormant/src/test/java/io/github/dfauth/dormant/DormantRegistryTest.java:39-57 | 0x7FFFFFFF goes out as 7F FF FF FF |
| Registries.DormantRegistry.constructor | dormant/src/main/java/io/github/dfauth/dormant/DormantRegistry.java:27-48 | the constructor registers the scanned classes in order, skipping and logging those register refuses |
| Registries.DormantRegistry.Register | dormant/src/main/java/io/github/dfauth/dormant/DormantRegistry.java:50-73 | register returns its check's verdict; on success it puts the class if absent and logs a collision with another name; on refusal nothing changes |
| Registries.DefaultValue | dormant/src/main/java/io/github/dfauth/dormant/DormantRegistry.java:92 | a fresh instance's field holds a value of its kind: null exactly for a reference kind, zero or false for a primitive one |
| Registries.DormantRegistry.Deserialize | dormant/src/main/java/io/github/dfauth/dormant/DormantRegistry.java:83-95 | deserialize returns a new object of the class found for the id holding the fields read, or the fault |
| Legacy.LegacyThrown | src/main/java/io/github/dfauth/dormant/BinarySerde.java:173-187 | an IOException surfaces as UncheckedIOException, a negative string length as NegativeArraySizeException, a refused envelope as IllegalArgumentException |
| Legacy.LegacyReadFaults | src/main/java/io/github/dfauth/dormant/BinarySerde.java:112-171 | a read of the older codec fails only on a short stream or a negative string length |
| Legacy.LegacyFieldsFaults | src/main/java/io/github/dfauth/dormant/BinarySerde.java:112-171 | reading a run of fields fails only on a short stream or a negative string length |
| Legacy.LegacyDeserializeFaults | src/main/java/io/github/dfauth/dormant/BinarySerde.java:36-47 | the older deserialize fails only on those or on a refused envelope |
| Legacy.AbsentNestedIsNull | src/main/java/io/github/dfauth/dormant/BinarySerde.java:163-171 | an absent nested object reads as null and no field of it is read |
| Legacy.LegacySerialize | src/main/java/io/github/dfauth/dormant/BinarySerde.java:9-34 | serialize returns exactly the envelope Serialize(cls, fields): D0 BA CA FE, the type id, then the fields and nothing more, which deserialize restores with their NaNs canonical |
| Legacy.LegacyDeserialize | src/main/java/io/github/dfauth/dormant/BinarySerde.java:36-47 | deserialize checks magic and type id, then reads the fields, or throws the exception the older codec throws (the wrapping at lines 173-187) |
| Wrappers.Present | ta/src/main/java/io/github/dfauth/ta/SimpleRingBuffer.java:28 | filtering out empty slots or absent optionals keeps at most as many values |
| RingBuffers.PresentAppend | ta/src/main/java/io/github/dfauth/ta/SimpleRingBuffer.java:28 | filtering two runs of slots is filtering each |
| RingBuffers.Somes | ta/src/main/java/io/github/dfauth/ta/SimpleRingBuffer.java:22 | written values as slots |
| RingBuffers.PresentSomes | ta/src/main/java/io/github/dfauth/ta/SimpleRingBuffer.java:28 | filtering written slots gives the values back |
| RingBuffers.PresentAllEmpty | ta/src/main/java/io/github/dfauth/ta/PrimitiveRingBuffer.java:15-29 | all-empty slots stream nothing |
| RingBuffers.Rotate | ta/src/main/java/io/github/dfauth/ta/SimpleRingBuffer.java:28 | the view from the offset to the end, then from 0, has the capacity's length |
| RingBuffers.Window | ta/src/main/java/io/github/dfauth/ta/SimpleRingBuffer.java:18-28 | the window of the last capacity slots has the capacity's length |
| RingBuffers.WindowStep | ta/src/main/java/io/github/dfauth/ta/SimpleRingBuffer.java:18-24 | one write drops the oldest window slot and appends the new value |
| RingBuffers.RotateWrite | ta/src/main/java/io/github/dfauth/ta/SimpleRingBuffer.java:18-28 | writing the offset's slot and advancing is the same step on the rotated view |
| RingBuffers.WindowFromEmpty | ta/src/test/java/io/github/dfauth/ta/SimpleRingBufferTest.java:26-47 | from empty, the window streams all writes until it wraps, then the last capacity writes, oldest first |
| RingBuffers.WindowRecent | ta/src/main/java/io/github/dfauth/ta/AbstractRingBuffer.java:26-32 | the window slot k from the end is the k-th most recent write, or an initial slot |
| RingBuffers.WindowOldest | ta/src/main/java/io/github/dfauth/ta/SimpleRingBuffer.java:18-21 | the oldest window slot is an initial slot until the writes wrap, then the write capacity writes ago |
| RingBuffers.RotateIndex | ta/src/main/java/io/github/dfauth/ta/SimpleRingBuffer.java:28 | entry j of the view is slot (offset + j) % capacity |
| RingBuffers.RotateRead | ta/src/main/java/io/github/dfauth/ta/AbstractRingBuffer.java:30-53 | slot (counter + capacity + n) % capacity is entry (capacity + n) % capacity of the view at the offset |
| RingBuffers.SimpleRingBuffer.constructor | ta/src/main/java/io/github/dfauth/ta/SimpleRingBuffer.java:11-15 | the buffer wraps the caller's array with a zero counter |
| RingBuffers.SimpleRingBuffer.Capacity | ta/src/main/java/io/github/dfauth/ta/SimpleRingBuffer.java:41-43 | capacity is the storage length |
| RingBuffers.SimpleRingBuffer.IsFull | ta/src/main/java/io/github/dfauth/ta/SimpleRingBuffer.java:31-34 | isFull: the counter has reached the capacity, from which on the stream holds the last capacity writes (RingBuffers.StreamIsLastWrites) |
| RingBuffers.SimpleRingBuffer.Offset | ta/src/main/java/io/github/dfauth/ta/SimpleRingBuffer.java:36-47 | the offset is a valid slot index |
| RingBuffers.SimpleRingBuffer.Write | ta/src/main/java/io/github/dfauth/ta/SimpleRingBuffer.java:18-33 | write stores into slot counter % capacity only, increments the counter, returns that slot's old content (the oldest entry), and isFull stays true |
| RingBuffers.SimpleRingBuffer.Stream | ta/src/main/java/io/github/dfauth/ta/SimpleRingBuffer.java:27-29 | stream is the window of slots from the offset round, without empty ones |
| RingBuffers.PrimitiveRingBuffer.constructor | ta/src/main/java/io/github/dfauth/ta/PrimitiveRingBuffer.java:13-16 | construction fills every slot with the NaN empty marker |
| RingBuffers.PrimitiveRingBuffer.Capacity | ta/src/main/java/io/github/dfauth/ta/PrimitiveRingBuffer.java:42-44 | capacity is the storage length |
| RingBuffers.PrimitiveRingBuffer.IsFull | ta/src/main/java/io/github/dfauth/ta/PrimitiveRingBuffer.java:32-35 | isFull: the counter has reached the capacity (RingBuffers.PrimitiveStreamIsLastWrites) |
| RingBuffers.PrimitiveRingBuffer.Offset | ta/src/main/java/io/github/dfauth/ta/PrimitiveRingBuffer.java:37-48 | the offset is a valid slot index |
| RingBuffers.PrimitiveRingBuffer.Write | ta/src/main/java/io/github/dfauth/ta/PrimitiveRingBuffer.java:19-34 | write returns the old slot value (NaN until it wraps), overwrites only that slot and increments the counter |
| RingBuffers.PrimitiveRingBuffer.Stream | ta/src/main/java/io/github/dfauth/ta/PrimitiveRingBuffer.java:28-30 | stream rotates from the offset and drops NaN slots |
| RingBuffers.AbstractRingBuffer.constructor | ta/src/main/java/io/github/dfauth/ta/AbstractRingBuffer.java:10 | the counter starts at zero |
| RingBuffers.AbstractRingBuffer.Capacity | ta/src/main/java/io/github/dfauth/ta/AbstractRingBuffer.java:38-41 | capacity is the storage length |
| RingBuffers.AbstractRingBuffer.IsFull | ta/src/main/java/io/github/dfauth/ta/AbstractRingBuffer.java:38-41 | isFull: the counter has reached the capacity, from which on write returns a real earlier write (RingBuffers.WriteReturnsOldest) |
| RingBuffers.AbstractRingBuffer.Read | ta/src/main/java/io/github/dfauth/ta/AbstractRingBuffer.java:30-53 | read(n) is slot (counter + capacity + n) % capacity, the window entry (capacity + n) % capacity |
| RingBuffers.AbstractRingBuffer.ReadLast | ta/src/main/java/io/github/dfauth/ta/AbstractRingBuffer.java:26-28 | read() is the most recent write |
| RingBuffers.AbstractRingBuffer.Offset | ta/src/main/java/io/github/dfauth/ta/AbstractRingBuffer.java:43-49 | offset() is a valid slot index and does not move the counter |
| RingBuffers.AbstractRingBuffer.Write | ta/src/main/java/io/github/dfauth/ta/AbstractRingBuffer.java:13-49 | write returns read(0), stores at counter % capacity and increments the counter |
| RingBuffers.AbstractRingBuffer.Stream | ta/src/main/java/io/github/dfauth/ta/AbstractRingBuffer.java:19-22 | stream reads slots 0 to capacity-1 and drops empty ones, oldest to newest |
| RingBuffers.StreamIsLastWrites | ta/src/main/java/io/github/dfauth/ta/SimpleRingBuffer.java:27-29 | a buffer that started empty streams all writes until it wraps, then the last capacity writes |
| RingBuffers.PrimitiveStreamIsLastWrites | ta/src/main/java/io/github/dfauth/ta/PrimitiveRingBuffer.java:28-30 | the primitive buffer streams all writes until it wraps, then the last capacity writes |
| RingBuffers.ReadRecent | ta/src/main/java/io/github/dfauth/ta/AbstractRingBuffer.java:26-32 | read(-k) is the k-th most recent write for k up to the capacity |
| RingBuffers.WriteReturnsOldest | ta/src/main/java/io/github/dfauth/ta/SimpleRingBuffer.java:18-21 | write returns null until the buffer wraps, then the write made capacity writes earlier |
| TrendStates.TestIsCurried | ta/src/main/java/io/github/dfauth/ta/TrendState.java:29-32 | test(f, s, l) is the curried predicate applied to f, s, then l |
| TrendStates.FirstMatch | ta/src/main/java/io/github/dfauth/ta/TrendState.java:34-36 | the state found holds, and none is found exactly when none holds |
| TrendStates.Classify | ta/src/main/java/io/github/dfauth/ta/TrendState.java:34-36 | classify: the first state in declaration order whose test holds, none standing for the IllegalStateException (TrendStates.ClassifyDistinct) |
| TrendStates.Exclusive | ta/src/main/java/io/github/dfauth/ta/TrendState.java:10-21 | at most one state holds for three values |
| TrendStates.ClassifyDistinct | ta/src/main/java/io/github/dfauth/ta/TrendState.java:10-36 | classify finds a state exactly when the three values are distinct, and it is the only one that holds |
| Optionals.Or | trycatch/src/main/java/io/github/dfauth/trycatch/Optionals.java:17-30 | or fails exactly on an empty list |
| Optionals.OrIsFoldOfPresent | trycatch/src/main/java/io/github/dfauth/trycatch/Optionals.java:17-30 | or of a non-empty list is empty exactly when all are, else the right fold of the present values |
| Optionals.And | trycatch/src/main/java/io/github/dfauth/trycatch/Optionals.java:35-44 | and fails exactly on an empty list |
| Optionals.AndOfPresent | trycatch/src/main/java/io/github/dfauth/trycatch/Optionals.java:35-44 | and of two or more is empty exactly when one is, and otherwise combines the last two |
| Optionals.Singleton | trycatch/src/main/java/io/github/dfauth/trycatch/Optionals.java:19-38 | or and and of one element return it |
| Maps.Merge | trycatch/src/main/java/io/github/dfauth/trycatch/Maps.java:16-19 | the merged map has both key sets; a key in one input keeps its value, a key in both gets the merge function's value |
| Maps.MergeStrict | trycatch/src/main/java/io/github/dfauth/trycatch/Maps.java:12-14 | merge() fails exactly on a shared key and is otherwise the union |
| Maps.MergeDisjoint | trycatch/src/main/java/io/github/dfauth/trycatch/Maps.java:16-19 | without shared keys the merge is the union |
| Sides.Side.Signed | trade/src/main/java/io/github/dfauth/trade/model/Side.java:8-18 | BUY negates an int amount and SELL keeps it |
| Sides.Side.SignedAmount | trade/src/main/java/io/github/dfauth/trade/model/Side.java:20-22 | the same sign rule for a decimal amount |
| Sides.Side.Flip | trade/src/main/java/io/github/dfauth/trade/model/Side.java:24-26 | flip always returns the other side |
| Sides.Side.IsBuy | trade/src/main/java/io/github/dfauth/trade/model/Side.java:28-30 | isBuy: the side is BUY (Sides.BuyXorSell) |
| Sides.Side.IsSell | trade/src/main/java/io/github/dfauth/trade/model/Side.java:32-34 | isSell: the side is SELL (Sides.BuyXorSell) |
| Sides.FlipInvolutive | trade/src/main/java/io/github/dfauth/trade/model/Side.java:24-26 | flipping twice gives the side back |
| Sides.BuyXorSell | trade/src/main/java/io/github/dfauth/trade/model/Side.java:28-34 | exactly one of isBuy and isSell holds |
| Sides.FlipNegates | trade/src/main/java/io/github/dfauth/trade/model/Side.java:16-26 | the flipped side signs every amount the opposite way |
| Positions.SignedSize | trade/src/main/java/io/github/dfauth/trade/model/Position.java:45-47 | the sum of side.signed(size) over the trades (Positions.SignedSizeAppend, Positions.FlippedSignedSize, PositionServices.NetIsSignedSize) |
| Positions.SignedCost | trade/src/main/java/io/github/dfauth/trade/model/Position.java:59-61 | the sum of side.signed(cost) over the trades, the realised PnL of a closed position (Positions.RoundTripPnl) |
| Positions.SignedSizeAppend | trade/src/main/java/io/github/dfauth/trade/model/Position.java:45-47 | one more trade adds its signed size to the position's signed sum |
| Positions.OnSide | trade/src/main/java/io/github/dfauth/trade/model/Position.java:80-82 | the trades kept are exactly those on the given side |
| Positions.Position.AddTrade | trade/src/main/java/io/github/dfauth/trade/model/Position.java:32-35 | addTrade appends the trade at the end and leaves the earlier trades and the instrument unchanged |
| Positions.Position.Size | trade/src/main/java/io/github/dfauth/trade/model/Position.java:45-47 | getSize: the absolute signed size (Positions.FlippedSignedSize, PositionServices.NetIsSignedSize) |
| Positions.Position.IsClosed | trade/src/main/java/io/github/dfauth/trade/model/Position.java:41-43 | isClosed: the size is zero (PositionServices.SplitProperties, Positions.PredicatesComplementary) |
| Positions.Position.IsOpen | trade/src/main/java/io/github/dfauth/trade/model/Position.java:37-39 | isOpen: not closed (Positions.PredicatesComplementary, PositionServices.ClosedOnes) |
| Positions.Position.OpeningSide | trade/src/main/java/io/github/dfauth/trade/model/Position.java:49-51 | getSide: the first trade's side (Positions.AveragePriceIgnoresOpposite, Positions.AveragePriceAddsOpening) |
| Positions.Position.IsShort | trade/src/main/java/io/github/dfauth/trade/model/Position.java:53-55 | isShort: the opening side is SELL (Positions.PredicatesComplementary) |
| Positions.Position.OpenDate | trade/src/main/java/io/github/dfauth/trade/model/Position.java:89-91 | getOpenDate: the first trade's date (PositionCollectors.CollectedCoherent, Positions.Of) |
| Positions.Position.CloseDate | trade/src/main/java/io/github/dfauth/trade/model/Position.java:93-95 | the close date is present exactly when closed, and is then the last trade's date |
| Positions.Position.RealisedPnl | trade/src/main/java/io/github/dfauth/trade/model/Position.java:57-72 | a closed position's PnL is the signed sum of its costs; an open one-sided one has 0 |
| Positions.Position.AveragePrice | trade/src/main/java/io/github/dfauth/trade/model/Position.java:80-87 | the average price is missing exactly when there are no trades or the opening-side sizes sum to 0, the two cases where the division by zero throws |
| Positions.Of | trade/src/main/java/io/github/dfauth/trade/model/Position.java:28-30 | of(t) has t's market and code, the trades [t], t's side and date, and is open exactly when t's size is not 0 |
| Positions.AveragePriceIgnoresOpposite | trade/src/main/java/io/github/dfauth/trade/model/Position.java:80-87 | a trade on the other side never changes the average price |
| Positions.AveragePriceAddsOpening | trade/src/main/java/io/github/dfauth/trade/model/Position.java:80-87 | an opening-side trade adds its size and cost to the average's totals |
| Positions.RoundTripPnl | trade/src/main/java/io/github/dfauth/trade/model/Position.java:41-95 | buying then selling the same size closes the position, on the sale's date, with the sale's cost less the purchase's |
| Positions.Flipped | trade/src/main/java/io/github/dfauth/trade/model/Side.java:24-26 | every trade with its side flipped |
| Positions.FlippedSignedSize | trade/src/main/java/io/github/dfauth/trade/model/Position.java:45-47 | flipping every side negates the signed sum, so the size does not change |
| Positions.PositionPredicate.Test | trade/src/main/java/io/github/dfauth/trade/model/PositionPredicate.java:5-20 | test: OPEN, CLOSED, SHORT and LONG delegate to isOpen, isClosed, isShort and its negation (Positions.PredicatesComplementary) |
| Positions.PredicatesComplementary | trade/src/main/java/io/github/dfauth/trade/model/PositionPredicate.java:5-20 | OPEN and CLOSED disagree on every position, as SHORT and LONG do, and SHORT means a SELL opening |
| PositionCollectors.CompareStrings | trade/src/main/java/io/github/dfauth/trade/utils/PositionCollector.java:59 | String.compareTo: the difference of the first differing characters, else of the lengths (PositionCollectors.CompareStringsZero, CompareStringsAntisymmetric, CompareStringsTransitive) |
| PositionCollectors.CompareStringsZero | trade/src/main/java/io/github/dfauth/trade/utils/PositionCollector.java:59 | String.compareTo is 0 exactly for equal strings |
| PositionCollectors.CompareStringsAntisymmetric | trade/src/main/java/io/github/dfauth/trade/utils/PositionCollector.java:59 | swapping the strings negates compareTo |
| PositionCollectors.CompareStringsTransitive | trade/src/main/java/io/github/dfauth/trade/utils/PositionCollector.java:59 | compareTo's order is transitive |
| PositionCollectors.Key.CompareTo | trade/src/main/java/io/github/dfauth/trade/utils/PositionCollector.java:56-61 | Key.compareTo: by date, ties broken by the code (PositionCollectors.KeyOrder) |
| PositionCollectors.KeyOrder | trade/src/main/java/io/github/dfauth/trade/utils/PositionCollector.java:53-62 | Key.compareTo is a strict total order by date then code, 0 exactly for equal keys |
| PositionCollectors.PutIndex | trade/src/main/java/io/github/dfauth/trade/utils/PositionCollector.java:33 | the insertion point has only smaller keys before it |
| PositionCollectors.Put | trade/src/main/java/io/github/dfauth/trade/utils/PositionCollector.java:33 | TreeMap.put keeps the keys sorted, holds the new entry, and keeps every entry under another key |
| PositionCollectors.FindOpen | trade/src/main/java/io/github/dfauth/trade/utils/PositionCollector.java:27-30 | the position found is the first open one of the trade's market and code in key order, and none is found only when none exists |
| PositionCollectors.Accumulate | trade/src/main/java/io/github/dfauth/trade/utils/PositionCollector.java:24-36 | the accumulator keeps the map sorted by key |
| PositionCollectors.Collected | trade/src/main/java/io/github/dfauth/trade/utils/PositionCollector.java:19-36 | the collected map is sorted by key |
| PositionCollectors.Values | trade/src/main/java/io/github/dfauth/trade/utils/PositionCollector.java:43-46 | the finisher returns the positions in key order |
| PositionCollectors.Combine | trade/src/main/java/io/github/dfauth/trade/utils/PositionCollector.java:38-41 | the combiner fails exactly on a shared key, else has both key sets |
| PositionCollectors.PositionAccumulator.constructor | trade/src/main/java/io/github/dfauth/trade/utils/PositionCollector.java:19-22 | the supplier gives an empty TreeMap |
| PositionCollectors.PositionAccumulator.Accept | trade/src/main/java/io/github/dfauth/trade/utils/PositionCollector.java:24-36 | accepting a trade applies the accumulator to the map |
| PositionCollectors.FindOpenIsFirst | trade/src/main/java/io/github/dfauth/trade/utils/PositionCollector.java:27-30 | the scan finds the first index passing its test |
| PositionCollectors.Collect | trade/src/main/java/io/github/dfauth/trade/utils/PositionCollector.java:17-46 | collecting trades returns the values of the accumulated map |
| PositionCollectors.AccumulateCoherent | trade/src/main/java/io/github/dfauth/trade/utils/PositionCollector.java:24-36 | each entry stays keyed by its instrument and opening date and holds one instrument's trades |
| PositionCollectors.CollectedCoherent | trade/src/main/java/io/github/dfauth/trade/utils/PositionCollector.java:43-62 | every collected position is keyed by its opening date, and the finisher lists them by opening date |
| PositionCollectors.CollectedOne | trade/src/main/java/io/github/dfauth/trade/utils/PositionCollector.java:33 | one trade makes one single-trade position under its key |
| PositionCollectors.CloseThenBuyTwoPositions | trade/src/main/java/io/github/dfauth/trade/utils/PositionCollector.java:29-33 | a closed position takes no more trades, so close then buy again gives two positions |
| PositionCollectors.MarketsSeparate | trade/src/main/java/io/github/dfauth/trade/utils/PositionCollector.java:28 | the same code in two markets gives two positions |
| PositionCollectors.SameDateReopenOverwrites | trade/src/main/java/io/github/dfauth/trade/utils/PositionCollector.java:33 | reopening on the closed position's opening date replaces it under the same key |
| PositionServices.Net | trade/src/main/java/io/github/dfauth/trade/service/PositionService.java:150-166 | runningSize of buildPositions: opening-side trades add their size, others subtract it (PositionServices.NetIsSignedSize) |
| PositionServices.NetIsSignedSize | trade/src/main/java/io/github/dfauth/trade/service/PositionService.java:150-166 | runningSize is the signed size seen from the opening side, 0 exactly when the position is closed |
| PositionServices.PositionOf | trade/src/main/java/io/github/dfauth/trade/service/PositionService.java:137-149 | a new position holds the trades, on its first trade's instrument |
| PositionServices.FlattenAppend | trade/src/main/java/io/github/dfauth/trade/service/PositionService.java:176-188 | the trades of two runs of positions are the trades of each |
| PositionServices.BuildPositions | trade/src/main/java/io/github/dfauth/trade/service/PositionService.java:125-191 | buildPositions returns the split of the trades into positions |
| PositionServices.Continue | trade/src/main/java/io/github/dfauth/trade/service/PositionService.java:136-188 | the loop of buildPositions from a current position and the trades still to read (PositionServices.ContinueFlatten, PositionServices.ContinueShape) |
| PositionServices.Split | trade/src/main/java/io/github/dfauth/trade/service/PositionService.java:125-190 | buildPositions as a function of the trades (PositionServices.BuildPositions, PositionServices.SplitProperties) |
| PositionServices.ContinueFlatten | trade/src/main/java/io/github/dfauth/trade/service/PositionService.java:136-188 | the positions' trades, in order, are the current trades and then the rest |
| PositionServices.PrefixesOpenStep | trade/src/main/java/io/github/dfauth/trade/service/PositionService.java:150-179 | a position still open after every trade but the new one stays open at each proper prefix |
| PositionServices.ContinueShape | trade/src/main/java/io/github/dfauth/trade/service/PositionService.java:136-188 | each position is non-empty, on one instrument, open at every proper prefix, closed unless last |
| PositionServices.SplitProperties | trade/src/main/java/io/github/dfauth/trade/service/PositionService.java:126-188 | no trades give no positions; the positions' trades are the input in order; each ends exactly when its size returns to 0 and only the last may be open |
| PositionServices.Codes | trade/src/main/java/io/github/dfauth/trade/service/PositionService.java:47-49 | the distinct codes in order of first appearance (PositionServices.CodesProperties) |
| PositionServices.CodesProperties | trade/src/main/java/io/github/dfauth/trade/service/PositionService.java:47-49 | the codes are exactly the trades' codes, each once |
| PositionServices.WithCode | trade/src/main/java/io/github/dfauth/trade/service/PositionService.java:51-53 | the trades with one code, in order (PositionServices.WithCodeMembers) |
| PositionServices.WithCodeMembers | trade/src/main/java/io/github/dfauth/trade/service/PositionService.java:51-53 | the trades kept are exactly those with the code |
| PositionServices.PositionsByMarket | trade/src/main/java/io/github/dfauth/trade/service/PositionService.java:43-57 | getPositionsByMarket appends the positions of each distinct code in order of first appearance |
| PositionServices.ByCode | trade/src/main/java/io/github/dfauth/trade/service/PositionService.java:50-55 | the positions of each code in turn (PositionServices.PositionsByMarket, PositionServices.ByCodeFlatten, PositionServices.ByCodeSingleCode) |
| PositionServices.Grouped | trade/src/main/java/io/github/dfauth/trade/service/PositionService.java:47-55 | the trades of each code in turn (PositionServices.GroupedAppend, PositionServices.GroupedIsPermutation) |
| PositionServices.ByCodeFlatten | trade/src/main/java/io/github/dfauth/trade/service/PositionService.java:50-55 | the positions' trades are the trades grouped by code, in order |
| PositionServices.ByCodeSingleCode | trade/src/main/java/io/github/dfauth/trade/service/PositionService.java:50-55 | each position holds trades of one code |
| PositionServices.GroupedAppend | trade/src/main/java/io/github/dfauth/trade/service/PositionService.java:47-55 | an appended trade joins only its own code's group |
| PositionServices.GroupedIsPermutation | trade/src/main/java/io/github/dfauth/trade/service/PositionService.java:47-55 | grouping by the distinct codes keeps every trade exactly once |
| PositionServices.PositionsByMarketProperties | trade/src/main/java/io/github/dfauth/trade/service/PositionService.java:43-57 | getPositionsByMarket keeps every trade exactly once, each position on one code |
| PositionServices.ClosedOnes | trade/src/main/java/io/github/dfauth/trade/service/PositionService.java:65-67 | the closed positions are exactly those not open |
| PositionServices.Outcome | trade/src/main/java/io/github/dfauth/trade/service/PositionService.java:83-88 | winners and losers are drawn from the closed positions |
| PositionServices.OutcomesPartition | trade/src/main/java/io/github/dfauth/trade/service/PositionService.java:83-91 | every closed position is a win (PnL > 0) or a loss (PnL <= 0), never both |
| PositionServices.PerformanceCounts | trade/src/main/java/io/github/dfauth/trade/service/PositionService.java:64-91 | the closed, winning and losing counts of computePerformanceStats, all zero without a closed position (PositionServices.WinsPlusLosses) |
| PositionServices.WinsPlusLosses | trade/src/main/java/io/github/dfauth/trade/service/PositionService.java:64-91 | wins plus losses is the number of closed positions, and with none every count is 0 |
| PositionServices.Filtered | trade/src/main/java/io/github/dfauth/trade/service/PositionService.java:39 | the positions kept are exactly those passing the predicate |
| PositionServices.GetPositions | trade/src/main/java/io/github/dfauth/trade/service/PositionService.java:36-41 | getPositions keeps exactly the collected positions that pass the predicate |
| TenorRanges.TenorRange.ToLocalDates | trade/src/main/java/io/github/dfauth/trade/model/TenorRange.java:25-41 | the pair is the range's start followed by its end |
| TenorRanges.TenorRange.StartFrom | trade/src/main/java/io/github/dfauth/trade/model/TenorRange.java:53-55 | the same tenor starts at the given date and ends the tenor after it |
| TenorRanges.TenorRange.EndAt | trade/src/main/java/io/github/dfauth/trade/model/TenorRange.java:57-59 | the same tenor ends at the given date and starts the tenor before it |
| TenorRanges.Anchored | trade/src/main/java/io/github/dfauth/trade/model/TenorRange.java:21-23 | the three-argument constructor makes a backward range at the anchor |
| TenorRanges.Matches | trade/src/main/java/io/github/dfauth/trade/model/TenorRange.java:11 | TENOR_PATTERN: one or more ASCII digits then one upper-case letter (TenorRanges.Parse) |
| TenorRanges.TenorOf | trade/src/main/java/io/github/dfauth/trade/model/TenorRange.java:49 | Tenor.valueOf of the letter: D, M or Y, any other letter refused (TenorRanges.Parse, TenorRanges.ParseShown) |
| TenorRanges.Parse | trade/src/main/java/io/github/dfauth/trade/model/TenorRange.java:43-51 | a string not of the form digits then one capital letter is refused with itself as the message; an accepted one gives the digits' value, the letter's unit, today's anchor and a backward direction |
| TenorRanges.ShowDigits | trade/src/main/java/io/github/dfauth/trade/model/TenorRange.java:11 | the decimal text of a number is a non-empty run of digits, as the pattern wants |
| TenorRanges.DigitsValueShow | trade/src/main/java/io/github/dfauth/trade/model/TenorRange.java:48 | parseInt of the decimal text of n is n |
| TenorRanges.ParseShown | trade/src/main/java/io/github/dfauth/trade/model/TenorRange.java:43-51 | parsing an amount written out and a unit letter gives the backward range of that amount and unit |
| DateRanges.Of | trade/src/main/java/io/github/dfauth/trade/model/DateRange.java:15-17 | the range starts and ends at the given dates |
| DateRanges.Resolve | trade/src/main/java/io/github/dfauth/trade/model/DateRange.java:19-28 | resolve: both dates win over the tenor, else the parsed tenor anchored forward at startFrom and then backward at endAt (DateRanges.ResolveBothDates, ResolveNoTenor, ResolveTenor, ResolveBadTenor) |
| DateRanges.ResolveBothDates | trade/src/main/java/io/github/dfauth/trade/model/DateRange.java:19-28 | with both dates the range is exactly those dates, whatever the tenor |
| DateRanges.ResolveNoTenor | trade/src/main/java/io/github/dfauth/trade/model/DateRange.java:19-28 | without a tenor and without both dates there is no range |
| DateRanges.ResolveTenor | trade/src/main/java/io/github/dfauth/trade/model/DateRange.java:19-28 | with one date and a parsable tenor, the range starts forward at startFrom or ends backward at endAt; with neither it is the parsed tenor |
| DateRanges.ResolveBadTenor | trade/src/main/java/io/github/dfauth/trade/model/DateRange.java:19-28 | an unparsable tenor is the error unless both dates are given |
| Valuations.RoundHalfUp | trade/src/main/java/io/github/dfauth/trade/model/ValuationSummary.java:24-26 | HALF_UP rounding to n places gives a multiple of 10^-n within half a unit of the last place, a tie going away from zero |
| Valuations.RoundHalfUpUnique | trade/src/main/java/io/github/dfauth/trade/model/ValuationSummary.java:24-26 | that contract has one solution: any multiple of 10^-n within those bounds is the rounded value |
| Valuations.Potential | trade/src/main/java/io/github/dfauth/trade/model/ValuationSummary.java:21-27 | there is a potential exactly when the price is present and not zero |
| Valuations.Of | trade/src/main/java/io/github/dfauth/trade/model/ValuationSummary.java:20-33 | every valuation field and the price are copied unchanged; the potential is absent exactly for a missing or zero price |
| Valuations.PotentialError | trade/src/main/java/io/github/dfauth/trade/model/ValuationSummary.java:22-26 | the two roundings keep the potential within 0.00505 of the exact percentage |
| Valuations.PotentialExample | trade/src/main/java/io/github/dfauth/trade/model/ValuationSummary.java:22-26 | a target of 105.5 against a price of 100 gives a potential of 5.5 |

## Left out

- The codec keeps a float or double field as its raw IEEE bit pattern and models the canonicalisation of NaNs on writing. Elsewhere doubles are exact reals (`TrendStates`, `PrimitiveRingBuffer`, the trade side), which cannot be NaN or infinite. No floating-point arithmetic is modelled: moving averages, trend calculation, the double ratio of `SideSizeCost.merge`, and the double win rate and risk/reward ratio.
- TrendStates.Classify: the three values are reals. With a NaN among Java's doubles every comparison is false, so no state holds and `classify` throws `IllegalStateException` even when the values are distinct; that case cannot be expressed, and `ClassifyDistinct` is about reals only.
- Positions.Position.RealisedPnl: requires a closed or one-sided position. The open two-sided case goes through `SideSizeCost.merge`, whose ratio is a double, so it is not modelled.
- Positions.Position.AveragePrice: the division is exact. `MathContext.DECIMAL128` and `setScale(..., HALF_UP)` rounding are not modelled.
- PositionServices.WinsPlusLosses: only the counts of `computePerformanceStats` are modelled. The average win and loss, the risk/reward ratio and the expectancy are decimal divisions at scale 10 and double conversions.
- `buildPositions` computes `totalCost`, `realisedPnl`, `avgPrice` and `avgEntryPrice` but never returns them; they are not modelled.
- Money is exact (`real`). BigDecimal scale is not tracked on the trade side.
- A trade's size is an `int`. `Trade` declares it a `BigDecimal` (Trade.java:31), while `Position.getSize`, `SideSizeCost` and `buildPositions` use it as an `int` (Position.java:46, 99; PositionService.java:155); the model follows that use, and fractional sizes are not modelled.
- Positions.Position.OpeningSide, IsShort, OpenDate and CloseDate require a non-empty position. Java's `getFirst()` and `getLast()` throw `NoSuchElementException` on an empty trade list; every caller in the source passes a position holding at least one trade.
- PositionCollectors.CompareStrings compares Unicode scalar values. `String.compareTo` compares UTF-16 code units, so the sign differs between a character above U+FFFF and one in U+E000..U+FFFF; codes and markets in that range are not modelled.
- Valuations.RoundHalfUp: HALF_UP is modelled on exact reals, not on BigDecimal's decimal representation.
- DateRanges.Resolve: the dates arrive already parsed. The `DateTimeParseException` that `YYYYMMDD::toLocalDate` raises for a malformed date is not modelled, nor its order after `TenorRange.parse` when only startFrom is given.
- Dormants.DormantObject.ReadFrom, Read, DeserializeFrom and ReadExternal require one field value per field kind, as every instance of a class has. The values a no-arg constructor gives a fresh instance in `DormantRegistry.deserialize` are Java's defaults here; a successful read overwrites them all and a failed one drops the instance.
- Int sizes and sums do not wrap. Java's `int` overflow in `signed`, `getSize` and `runningSize` is not modelled.
- `Position.addTrade` mutates its list and returns the same object. Here a position is a value, and the collector stores the updated value back under its key. Aliasing between positions is not represented.
- The ring buffers' `AtomicInteger` counter is an unbounded natural. Its wrap-around after 2^31 writes, which makes the offset negative, is not modelled, nor is concurrent access.
- RingBuffers.PrimitiveRingBuffer.Write: a written value is a real. Writing `NaN`, which `stream` would then drop, cannot be expressed.
- RingBuffers.SimpleRingBuffer.constructor: requires a non-empty array. The zero-capacity buffer is excluded: its `capacity()` is 0 and its `isFull()` true, while `write`, `stream` and `offset` throw `ArithmeticException` on `% 0`.
- RingBuffers.PrimitiveRingBuffer.constructor: requires a positive capacity. A zero-capacity buffer is excluded: its `capacity()` is 0 and its `isFull()` true, while `write`, `stream` and `offset` throw `ArithmeticException` on `% 0`; the class has no `read`.
- RingBuffers.AbstractRingBuffer.constructor: requires a positive capacity. With capacity 0, `isFull()` is true and `offset`, `read` and `write` throw `ArithmeticException` on `% 0`; that buffer is excluded.
- RingBuffers.SimpleRingBuffer.Write: writes a value. Java's `write(null)` stores null, which empties the slot so that `stream` skips it; writing an empty slot cannot be expressed.
- RingBuffers.AbstractRingBuffer.Read: requires counter + capacity + n >= 0. For a more negative n, Java's truncating `%` gives a negative index and `readOffset` throws `ArrayIndexOutOfBoundsException`, except when the sum is a negative multiple of the capacity, where the index is 0 and slot 0 is read. The source only calls read with 0, -1 and 0..capacity-1, which all meet the requirement.
- Reflection and class scanning are replaced by class descriptors: a name, the field kinds, and the abstract, interface and no-arg-constructor flags. ClassGraph, `loadClass` failures and a constructor that throws are not modelled.
- A `typeId()` overridden by a class is not modelled: the type id is always the hash code of the class name.
- The scan result is an input sequence. ClassGraph's order and package filtering are not modelled.
- Log messages are modelled as structured entries, not as their text.
- The unchecked cast in `DormantRegistry.deserialize` is not modelled. The result is a `DormantObject` of the class found.
- Exceptions of the current codec are the `Fault` cause only. The `RuntimeException` wrapper that `tryCatch` adds is not distinguished; the older codec's exception classes are modelled in `Legacy`.
- A map is its entry list in iteration order. `readMap` builds a `HashMap`, so duplicate keys collapse and the iteration order may change; neither is modelled.
- Malformed UTF-8 is replaced by one U+FFFD per offending byte. Java's maximal-subpart replacement is not modelled. Text is a sequence of Unicode scalar values, so a lone surrogate in a Java string cannot be written.
- `LocalDate` calendar arithmetic (`Tenor` plus and minus, `LocalDate.now()`) is a parameter of the model.
- I/O streams are byte sequences, and an `IOException` other than the end of the stream is not modelled.
- ConcurrentHashMap atomicity is not modelled: the registry is sequential.
- Repository queries (`findByUserId...`) are not modelled: the trade lists are inputs.
- Spring plumbing, controllers, persistence and the UI are not modelled.
- The `Serde` kinds with no implementation are not modelled: `Instant`, `LocalDateTime`, byte arrays, enums, ordinals and the factory-less `readDormant()`.
