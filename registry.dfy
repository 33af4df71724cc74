// DormantRegistry: a map from type id to the class whose no-arg constructor
// makes new instances, filled by a scan of the classes implementing Dormant
// and by explicit registration, and used to deserialize an envelope whose
// class the caller does not know.

module Registries {
  import opened Wrappers
  import opened Bytes
  import opened Wire
  import opened WireLaws
  import opened Sessions
  import opened Dormants

  /** The registry's factories: each id stands for the class whose no-arg
      constructor the factory calls. */
  type Factories = map<Int32, DormantClass>

  /** The IllegalArgumentExceptions register throws. */
  datatype RegisterError =
    | AbstractOrInterface(name: JavaString)
    | NoNoArgConstructor(name: JavaString)

  /** The warnings the registry logs. */
  datatype LogEntry =
    | CouldNotRegister(name: JavaString, reason: RegisterError)
    | TypeIdCollision(existing: JavaString, incoming: JavaString, id: Int32)

  /** A class register accepts: concrete and with a no-arg constructor. */
  predicate Registrable(c: DormantClass)
  {
    !c.isAbstract && !c.isInterface && c.hasNoArgConstructor
  }

  /** register's checks, in the order it makes them. */
  function RegisterCheck(c: DormantClass): (r: Result<(), RegisterError>)
    ensures r.Ok? <==> Registrable(c)
    ensures c.isAbstract || c.isInterface ==> r == Err(AbstractOrInterface(c.name))
    ensures !c.isAbstract && !c.isInterface && !c.hasNoArgConstructor ==> r == Err(NoNoArgConstructor(c.name))
  {
    if c.isAbstract || c.isInterface then Err(AbstractOrInterface(c.name))
    else if !c.hasNoArgConstructor then Err(NoNoArgConstructor(c.name))
    else Ok(())
  }

  /** putIfAbsent of the class under its type id. */
  function Registered(f: Factories, c: DormantClass): Factories
  {
    var id := TypeIdOf(c);
    if id in f then f else f[id := c]
  }

  /** The collision warning register logs when the id is taken by another class name. */
  function RegisterLog(f: Factories, c: DormantClass): seq<LogEntry>
  {
    var id := TypeIdOf(c);
    if id in f && f[id].name != c.name then [TypeIdCollision(f[id].name, c.name, id)] else []
  }

  /** Every factory sits under its own class's type id and its class is registrable. */
  predicate Consistent(f: Factories)
  {
    forall id :: id in f ==> TypeIdOf(f[id]) == id && Registrable(f[id])
  }

  /** One class of the scan: abstract classes and interfaces are skipped, any
      other is registered, and one register refuses is skipped too. */
  function ScanOne(f: Factories, c: DormantClass): Factories
  {
    if Registrable(c) then Registered(f, c) else f
  }

  /** What the scan logs for one class: why register refused it, or a collision. */
  function ScanLogOne(f: Factories, c: DormantClass): seq<LogEntry>
  {
    if c.isAbstract || c.isInterface then []
    else if !c.hasNoArgConstructor then [CouldNotRegister(c.name, NoNoArgConstructor(c.name))]
    else RegisterLog(f, c)
  }

  /** The constructor's loop over the scan result, from the first class to the last. */
  function Scanned(f: Factories, cs: seq<DormantClass>): Factories
  {
    if cs == [] then f else ScanOne(Scanned(f, cs[..|cs| - 1]), cs[|cs| - 1])
  }

  function ScanLog(f: Factories, cs: seq<DormantClass>): seq<LogEntry>
  {
    if cs == [] then []
    else
      var init := cs[..|cs| - 1];
      ScanLog(f, init) + ScanLogOne(Scanned(f, init), cs[|cs| - 1])
  }

  /** The first registrable class of the list with this type id, if any. */
  function FirstWithId(cs: seq<DormantClass>, id: Int32): (r: Option<DormantClass>)
    ensures r.Some? ==> r.value in cs && Registrable(r.value) && TypeIdOf(r.value) == id
  {
    if cs == [] then None
    else if Registrable(cs[0]) && TypeIdOf(cs[0]) == id then Some(cs[0])
    else FirstWithId(cs[1..], id)
  }

  /** create: the registered class for the id, or IllegalArgumentException. */
  function Create(f: Factories, id: Int32): (r: Result<DormantClass, Fault>)
    ensures r.Ok? <==> id in f
    ensures r.Ok? ==> r.value == f[id]
    ensures r.Err? ==> r.error == UnknownTypeId(id)
  {
    if id in f then Ok(f[id]) else Err(UnknownTypeId(id))
  }

  /** DormantRegistry.deserialize: the magic number is checked, the type id picks
      the class, and a new instance of that class reads its fields from the rest. */
  function RegistryDeserialize(f: Factories, data: seq<Byte>): Result<(DormantClass, seq<Value>), Fault>
  {
    match Decode(IntK, data, 0)
    case Fail(e) => Err(e)
    case Got(magic, p) =>
      if magic.i != MAGIC then Err(BadMagic(magic.i))
      else
        match Decode(IntK, data, p)
        case Fail(e) => Err(e)
        case Got(id, q) =>
          match Create(f, id.i)
          case Err(e) => Err(e)
          case Ok(c) =>
            match DecodeFields(c.kinds, data, q)
            case FailSeq(e) => Err(e)
            case GotSeq(vs, _) => Ok((c, vs))
  }

  // ---------------------------------------------------------------------------
  // Laws of registration

  /** register keeps every existing factory, adds the class only when its id is
      free, and keeps the registry consistent. */
  lemma RegisteredFirstWins(f: Factories, c: DormantClass)
    requires Consistent(f) && Registrable(c)
    ensures Consistent(Registered(f, c))
    ensures Registered(f, c).Keys == f.Keys + {TypeIdOf(c)}
    ensures forall id :: id in f ==> Registered(f, c)[id] == f[id]
    ensures TypeIdOf(c) !in f ==> Registered(f, c)[TypeIdOf(c)] == c
  {
  }

  /** Registering a class a second time changes nothing and logs what the first did. */
  lemma RegisterTwice(f: Factories, c: DormantClass)
    ensures Registered(Registered(f, c), c) == Registered(f, c)
    ensures RegisterLog(Registered(f, c), c) == RegisterLog(f, c)
  {
  }

  lemma {:induction false} FirstWithIdSnoc(cs: seq<DormantClass>, c: DormantClass, id: Int32)
    ensures FirstWithId(cs + [c], id) ==
      if FirstWithId(cs, id).Some? then FirstWithId(cs, id)
      else if Registrable(c) && TypeIdOf(c) == id then Some(c)
      else None
  {
    if cs == [] {
      assert [] + [c] == [c];
    } else {
      assert (cs + [c])[0] == cs[0] && (cs + [c])[1..] == cs[1..] + [c];
      FirstWithIdSnoc(cs[1..], c, id);
    }
  }

  /** After the scan, an id maps to what the registry had before, or else to the
      first registrable class in scan order with that id. */
  lemma {:induction false} ScanContents(f: Factories, cs: seq<DormantClass>, id: Int32)
    ensures id in Scanned(f, cs) <==> id in f || FirstWithId(cs, id).Some?
    ensures id in Scanned(f, cs) ==>
      Scanned(f, cs)[id] == if id in f then f[id] else FirstWithId(cs, id).value
  {
    if cs != [] {
      var init, last := cs[..|cs| - 1], cs[|cs| - 1];
      assert init + [last] == cs;
      ScanContents(f, init, id);
      FirstWithIdSnoc(init, last, id);
    }
  }

  /** The scan keeps the registry consistent. */
  lemma {:induction false} ScanConsistent(f: Factories, cs: seq<DormantClass>)
    requires Consistent(f)
    ensures Consistent(Scanned(f, cs))
  {
    if cs != [] {
      ScanConsistent(f, cs[..|cs| - 1]);
    }
  }

  /** Two registrable classes of different names with one id: the first one scanned
      wins and the second is logged as a collision. */
  lemma CollisionFirstWins(c1: DormantClass, c2: DormantClass)
    requires Registrable(c1) && Registrable(c2)
    requires TypeIdOf(c1) == TypeIdOf(c2) && c1.name != c2.name
    ensures Scanned(map[], [c1, c2]) == map[TypeIdOf(c1) := c1]
    ensures ScanLog(map[], [c1, c2]) == [TypeIdCollision(c1.name, c2.name, TypeIdOf(c1))]
  {
    var id, cs := TypeIdOf(c1), [c1, c2];
    assert cs[..1] == [c1] && [c1][..0] == [];
    assert Scanned(map[], [c1]) == map[id := c1];
    assert ScanLog(map[], [c1]) == [];
  }

  /** The scan logs nothing when every class it registers has a no-arg constructor
      and no two of them of different names share a type id. */
  lemma {:induction false} ScanQuiet(f: Factories, cs: seq<DormantClass>)
    requires Consistent(f)
    requires forall c :: c in cs && !c.isAbstract && !c.isInterface ==> c.hasNoArgConstructor
    requires forall c :: c in cs && Registrable(c) && TypeIdOf(c) in f ==> f[TypeIdOf(c)].name == c.name
    requires forall i, j ::
               (0 <= i < j < |cs| && Registrable(cs[i]) && Registrable(cs[j]) && TypeIdOf(cs[i]) == TypeIdOf(cs[j]))
               ==> cs[i].name == cs[j].name
    ensures ScanLog(f, cs) == []
  {
    if cs != [] {
      var init, last := cs[..|cs| - 1], cs[|cs| - 1];
      assert forall i :: 0 <= i < |init| ==> init[i] == cs[i];
      ScanQuiet(f, init);
      if Registrable(last) && TypeIdOf(last) in Scanned(f, init) {
        var id := TypeIdOf(last);
        ScanContents(f, init, id);
        if id !in f {
          var first := FirstWithId(init, id).value;
          var i :| 0 <= i < |init| && init[i] == first;
          assert cs[i] == first && cs[|cs| - 1] == last;
        }
      }
    }
  }

  // ---------------------------------------------------------------------------
  // Laws of deserialization

  /** deserialize through the registry is peekTypeId, then create, then the
      class-directed BinarySerde.deserialize with the class create found. */
  lemma RegistryDeserializeAgrees(f: Factories, data: seq<Byte>)
    requires Consistent(f)
    ensures RegistryDeserialize(f, data) ==
      match PeekTypeId(data)
      case Err(e) => Err(e)
      case Ok(id) =>
        if id !in f then Err(UnknownTypeId(id))
        else
          match Deserialize(data, f[id])
          case Err(e) => Err(e)
          case Ok(vs) => Ok((f[id], vs))
  {
  }

  /** An envelope of a registered class comes back as that class with the fields written. */
  lemma RegistryRoundTrip(f: Factories, c: DormantClass, vs: seq<Value>, rest: seq<Byte>)
    requires Consistent(f) && TypeIdOf(c) in f && f[TypeIdOf(c)] == c
    requires ConformsAll(vs, c.kinds)
    ensures RegistryDeserialize(f, Serialize(c, vs) + rest) == Ok((c, CanonAll(vs)))
  {
    RegistryDeserializeAgrees(f, Serialize(c, vs) + rest);
    PeekTypeIdRoundTrip(c, vs, rest);
    DeserializeRoundTrip(c, vs, rest);
  }

  /** After a scan in which no other registrable class shares its id, each
      registrable class's envelopes come back as that class. */
  lemma ScannedRoundTrip(cs: seq<DormantClass>, c: DormantClass, vs: seq<Value>)
    requires c in cs && Registrable(c)
    requires forall d :: d in cs && Registrable(d) && TypeIdOf(d) == TypeIdOf(c) ==> d == c
    requires ConformsAll(vs, c.kinds)
    ensures RegistryDeserialize(Scanned(map[], cs), Serialize(c, vs)) == Ok((c, CanonAll(vs)))
  {
    var id := TypeIdOf(c);
    FirstWithIdFindsMember(cs, c);
    ScanContents(map[], cs, id);
    ScanConsistent(map[], cs);
    RegistryRoundTrip(Scanned(map[], cs), c, vs, []);
    assert Serialize(c, vs) + [] == Serialize(c, vs);
  }

  lemma {:induction false} FirstWithIdFindsMember(cs: seq<DormantClass>, c: DormantClass)
    requires c in cs && Registrable(c)
    ensures FirstWithId(cs, TypeIdOf(c)).Some?
  {
    if cs[0] != c {
      FirstWithIdFindsMember(cs[1..], c);
    }
  }

  /** Under a collision, an envelope of the second class is read with the first
      class's fields. */
  lemma CollisionReadsAsFirst(c1: DormantClass, c2: DormantClass, vs: seq<Value>)
    requires Registrable(c1) && Registrable(c2)
    requires TypeIdOf(c1) == TypeIdOf(c2) && c1.name != c2.name
    requires ConformsAll(vs, c2.kinds)
    ensures RegistryDeserialize(Scanned(map[], [c1, c2]), Serialize(c2, vs)).Ok? ==>
      RegistryDeserialize(Scanned(map[], [c1, c2]), Serialize(c2, vs)).value.0 == c1
  {
    CollisionFirstWins(c1, c2);
    RegistryDeserializeAgrees(map[TypeIdOf(c1) := c1], Serialize(c2, vs));
    PeekTypeIdRoundTrip(c2, vs, []);
    assert Serialize(c2, vs) + [] == Serialize(c2, vs);
  }

  /** The eight bytes of unknownTypeIdThrowsException: the magic number, then
      0x7FFFFFFF, an id no class in the registry has. */
  lemma UnknownTypeIdRefused(f: Factories)
    requires 0x7FFF_FFFF !in f
    ensures RegistryDeserialize(f, [0xD0, 0xBA, 0xCA, 0xFE, 0x7F, 0xFF, 0xFF, 0xFF])
      == Err(UnknownTypeId(0x7FFF_FFFF))
  {
    var data: seq<Byte> := [0xD0, 0xBA, 0xCA, 0xFE, 0x7F, 0xFF, 0xFF, 0xFF];
    MagicBytes();
    MaxIntBytes();
    assert data[0..4] == EncodeInt(MAGIC) && data[4..8] == EncodeInt(0x7FFF_FFFF);
    IntField(MAGIC, data, 0);
    IntField(0x7FFF_FFFF, data, 4);
  }

  lemma MaxIntBytes()
    ensures EncodeInt(0x7FFF_FFFF) == [0x7F, 0xFF, 0xFF, 0xFF]
  {
    Pow256Values();
    assert ToBigEndian(0x7F, 1) == [0x7F];
    assert ToBigEndian(0x7FFF, 2) == [0x7F, 0xFF];
    assert ToBigEndian(0x7F_FFFF, 3) == [0x7F, 0xFF, 0xFF];
    assert ToBigEndian(0x7FFF_FFFF, 4) == [0x7F, 0xFF, 0xFF, 0xFF];
  }

  // ---------------------------------------------------------------------------
  // The registry object

  /** A field of a fresh instance before its read: Java's zero for a primitive
      kind and null for a reference kind. */
  function DefaultValue(k: Kind): (v: Value)
    ensures Conforms(v, k)
    ensures v.Null? <==> IsReference(k)
  {
    match k
    case IntK => IntV(0)
    case LongK => LongV(0)
    case FloatK => FloatV(0)
    case DoubleK => DoubleV(0)
    case BooleanK => BooleanV(false)
    case ByteK => ByteV(0)
    case ShortK => ShortV(0)
    case CharK => CharV(0)
    case _ => Null
  }

  class DormantRegistry {
    var factories: Factories
    var log: seq<LogEntry>

    predicate Valid()
      reads this
    {
      Consistent(factories)
    }

    /** The constructor: every class the scan found implementing Dormant, in scan
        order; abstract classes and interfaces are skipped and a class register
        refuses is logged and skipped. */
    constructor(scan: seq<DormantClass>)
      ensures Valid()
      ensures factories == Scanned(map[], scan) && log == ScanLog(map[], scan)
    {
      factories := map[];
      log := [];
      new;
      for i := 0 to |scan|
        invariant Consistent(factories)
        invariant factories == Scanned(map[], scan[..i]) && log == ScanLog(map[], scan[..i])
      {
        var c := scan[i];
        assert scan[..i + 1][..i] == scan[..i] && scan[..i + 1][i] == c;
        if c.isAbstract || c.isInterface {
          continue;
        }
        var r := Register(c);
        if r.Err? {
          log := log + [CouldNotRegister(c.name, r.error)];
        }
      }
      assert scan[..|scan|] == scan;
    }

    /** register: refuses abstract classes, interfaces and classes without a no-arg
        constructor; otherwise the first class under an id stays and a different
        class name under a taken id is logged. */
    method Register(c: DormantClass) returns (r: Result<(), RegisterError>)
      requires Valid()
      modifies this
      ensures Valid()
      ensures r == RegisterCheck(c)
      ensures r.Ok? ==> factories == Registered(old(factories), c)
                        && log == old(log) + RegisterLog(old(factories), c)
      ensures r.Err? ==> factories == old(factories) && log == old(log)
    {
      if c.isAbstract || c.isInterface {
        return Err(AbstractOrInterface(c.name));
      }
      if !c.hasNoArgConstructor {
        return Err(NoNoArgConstructor(c.name));
      }
      var id := TypeIdOf(c);
      if id in factories {
        if factories[id].name != c.name {
          log := log + [TypeIdCollision(factories[id].name, c.name, id)];
        }
      } else {
        factories := factories[id := c];
      }
      return Ok(());
    }

    /** deserialize: the magic number, the type id, a new instance from the
        factory, and that instance's read(Serde) over the rest. */
    method Deserialize(data: seq<Byte>) returns (r: Result<DormantObject, Fault>)
      requires Valid()
      ensures var d := RegistryDeserialize(factories, data);
        && (d.Ok? ==> r.Ok? && fresh(r.value) && r.value.cls == d.value.0 && r.value.fields == d.value.1)
        && (d.Err? ==> r == Err(d.error))
    {
      var serde := new ReaderSession(data);
      var magic := serde.ReadScalar(IntK);
      if magic.Err? {
        return Err(magic.error);
      }
      if magic.value.i != MAGIC {
        return Err(BadMagic(magic.value.i));
      }
      var id := serde.ReadScalar(IntK);
      if id.Err? {
        return Err(id.error);
      }
      if id.value.i !in factories {
        return Err(UnknownTypeId(id.value.i));
      }
      // A read that succeeds overwrites every field the no-arg constructor
      // left, and the instance is dropped when it fails.
      var c := factories[id.value.i];
      var instance := new DormantObject(c, seq(|c.kinds|, i requires 0 <= i < |c.kinds| => DefaultValue(c.kinds[i])));
      var read := instance.ReadFrom(serde);
      if read.Err? {
        return Err(read.error);
      }
      return Ok(instance);
    }
  }
}
