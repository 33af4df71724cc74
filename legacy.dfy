// The older BinarySerde at the root of the repository: the same envelope and
// the same encodings, over a smaller Serde interface (the eight primitives,
// strings and nested objects), with every IOException rethrown as an
// UncheckedIOException.

module Legacy {
  import opened Wrappers
  import opened Bytes
  import opened Wire
  import opened WireLaws
  import opened Dormants

  /** The kinds the older Serde interface has read and write methods for. */
  predicate LegacyKind(k: Kind)
    decreases KindSize(k), 0
  {
    match k
    case NestedK(fs) => LegacyKinds(fs)
    case DecimalK => false
    case DateK => false
    case ListK(_) => false
    case MapK(_, _) => false
    case _ => true
  }

  predicate LegacyKinds(ks: seq<Kind>)
    decreases KindsSize(ks), 1
  {
    ks == [] || (LegacyKind(ks[0]) && LegacyKinds(ks[1..]))
  }

  /** The failures a read of the older codec can meet: the stream ends early,
      or a negative string length reaches the array allocation. */
  predicate ReadFault(f: Fault)
  {
    f.EndOfStream? || f.NegativeArraySize?
  }

  /** The failures of the older deserialize: those of a read, or a refused envelope. */
  predicate LegacyFault(f: Fault)
  {
    ReadFault(f) || f.BadMagic? || f.TypeIdMismatch?
  }

  /** What the caller of the older codec catches. */
  datatype Thrown =
    | UncheckedIO(cause: Fault)               // an IOException, wrapped by wrap or supply
    | NegativeArraySizeException(length: int) // not an IOException, so supply lets it through
    | IllegalArgument(cause: Fault)           // deserialize's envelope checks

  /** The exception each failure surfaces as. */
  function LegacyThrown(f: Fault): (t: Thrown)
    requires LegacyFault(f)
    ensures t.UncheckedIO? <==> f == EndOfStream
    ensures t.NegativeArraySizeException? <==> f.NegativeArraySize?
    ensures t.IllegalArgument? <==> f.BadMagic? || f.TypeIdMismatch?
  {
    match f
    case EndOfStream => UncheckedIO(f)
    case NegativeArraySize(n) => NegativeArraySizeException(n)
    case _ => IllegalArgument(f)
  }

  /** A read of a legacy kind fails only for the reasons the older codec has. */
  lemma {:induction false} LegacyReadFaults(k: Kind, s: seq<Byte>, p: nat)
    requires LegacyKind(k)
    ensures Decode(k, s, p).Fail? ==> ReadFault(Decode(k, s, p).fault)
    decreases KindSize(k), 0
  {
    if k.NestedK? {
      var flag := Decode(BooleanK, s, p);
      if flag.Got? && flag.value.flag {
        LegacyFieldsFaults(k.fields, s, flag.next);
      }
    }
  }

  lemma {:induction false} LegacyFieldsFaults(ks: seq<Kind>, s: seq<Byte>, p: nat)
    requires LegacyKinds(ks)
    ensures DecodeFields(ks, s, p).FailSeq? ==> ReadFault(DecodeFields(ks, s, p).fault)
    decreases KindsSize(ks), 1
  {
    if ks != [] {
      LegacyReadFaults(ks[0], s, p);
      var d := Decode(ks[0], s, p);
      if d.Got? {
        LegacyFieldsFaults(ks[1..], s, d.next);
      }
    }
  }

  /** deserialize of a class with legacy kinds fails only as the older codec can:
      a short stream, a negative string length, or a refused envelope. */
  lemma LegacyDeserializeFaults(data: seq<Byte>, c: DormantClass)
    requires LegacyKinds(c.kinds)
    ensures Deserialize(data, c).Err? ==> LegacyFault(Deserialize(data, c).error)
  {
    LegacyFieldsFaults(c.kinds, data, 8);
  }

  /** A nested object whose presence flag is false reads back as null, and no
      field of it is read whatever its kinds. */
  lemma AbsentNestedIsNull(fs: seq<Kind>, s: seq<Byte>, p: nat)
    requires p < |s| && s[p] == 0
    ensures Decode(NestedK(fs), s, p) == Got(Null, p + 1)
  {
    assert Decode(BooleanK, s, p) == Got(BooleanV(false), p + 1);
  }

  /** BinarySerde.serialize: the envelope the current codec writes, which the
      current deserialize reads back. */
  method LegacySerialize(obj: DormantObject) returns (bytes: seq<Byte>)
    requires obj.Valid() && LegacyKinds(obj.cls.kinds)
    ensures |bytes| >= 8 && bytes[..4] == [0xD0, 0xBA, 0xCA, 0xFE] && bytes[4..8] == EncodeInt(TypeIdOf(obj.cls))
    ensures bytes == Serialize(obj.cls, obj.fields)
    ensures Deserialize(bytes, obj.cls) == Ok(CanonAll(obj.fields))
  {
    bytes := obj.Write();
    SerializeStartsWithMagic(obj.cls, obj.fields);
    DeserializeRoundTrip(obj.cls, obj.fields, []);
    assert bytes + [] == bytes;
  }

  /** BinarySerde.deserialize: the envelope checks, then the object's own read;
      a failure surfaces as the exception the older codec throws. */
  method LegacyDeserialize(data: seq<Byte>, obj: DormantObject) returns (r: Result<(), Thrown>)
    requires LegacyKinds(obj.cls.kinds) && |obj.fields| == |obj.cls.kinds|
    modifies obj
    ensures obj.fields == if PeekTypeId(data) == Ok(TypeIdOf(obj.cls))
      then AfterRead(obj.cls.kinds, data, 8, old(obj.fields)) else old(obj.fields)
    ensures var d := Deserialize(data, obj.cls);
      && (d.Ok? ==> r == Ok(()) && obj.fields == d.value)
      && (d.Err? ==> LegacyFault(d.error) && r == Err(LegacyThrown(d.error)))
  {
    LegacyDeserializeFaults(data, obj.cls);
    var read := obj.DeserializeFrom(data);
    if read.Err? {
      return Err(LegacyThrown(read.error));
    }
    return Ok(());
  }
}
