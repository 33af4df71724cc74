// The Serde sessions of BinarySerde: a writer session appends to its output
// stream, a reader session consumes its input through a cursor. Each session
// method is proved against the wire function for its kind, and the reads of a
// list, a map or a nested object loop over their elements as the Java code does.

module Sessions {
  import opened Wrappers
  import opened Bytes
  import opened Wire
  import Utf8
  import TwosComplement

  lemma KindsSizeElem(ks: seq<Kind>, i: nat)
    requires i < |ks|
    ensures KindSize(ks[i]) <= KindsSize(ks)
  {
    if i > 0 {
      KindsSizeElem(ks[1..], i - 1);
    }
  }

  /** One more field written in front of the rest of a Dormant's write. */
  lemma EncodeFieldsStep(ks: seq<Kind>, vs: seq<Value>, i: nat, out: seq<Byte>)
    requires i < |ks| == |vs| && ConformsAll(vs[i..], ks[i..])
    ensures Conforms(vs[i], ks[i]) && ConformsAll(vs[i + 1..], ks[i + 1..])
    ensures out + Encode(ks[i], vs[i]) + EncodeFields(ks[i + 1..], vs[i + 1..]) == out + EncodeFields(ks[i..], vs[i..])
  {
    assert ks[i..][1..] == ks[i + 1..] && vs[i..][1..] == vs[i + 1..];
  }

  lemma EncodeElemsStep(e: Kind, vs: seq<Value>, i: nat, out: seq<Byte>)
    requires i < |vs| && ElemsConform(vs[i..], e)
    ensures Conforms(vs[i], e) && ElemsConform(vs[i + 1..], e)
    ensures out + Encode(e, vs[i]) + EncodeElems(e, vs[i + 1..]) == out + EncodeElems(e, vs[i..])
  {
    assert vs[i..][1..] == vs[i + 1..];
  }

  lemma EncodeEntriesStep(a: Kind, b: Kind, es: seq<Entry>, i: nat, out: seq<Byte>)
    requires i < |es| && EntriesConform(es[i..], a, b)
    ensures Conforms(es[i].key, a) && Conforms(es[i].value, b) && EntriesConform(es[i + 1..], a, b)
    ensures out + EncodeEntry(a, b, es[i]) + EncodeEntries(a, b, es[i + 1..]) == out + EncodeEntries(a, b, es[i..])
  {
    assert es[i..][1..] == es[i + 1..];
  }

  // ---------------------------------------------------------------------------
  // Writing

  /** A session bound to a DataOutputStream: out is everything written so far. */
  class WriterSession {
    var out: seq<Byte>

    constructor()
      ensures out == []
    {
      out := [];
    }

    /** writeInt, writeLong, writeFloat, writeDouble, writeBoolean, writeByte,
        writeShort and writeChar: DataOutputStream's fixed-width big-endian forms. */
    method WriteScalar(v: Value)
      requires v.IntV? || v.LongV? || v.FloatV? || v.DoubleV? || v.BooleanV? || v.ByteV? || v.ShortV? || v.CharV?
      modifies this
      ensures out == old(out) + EncodeScalar(v)
    {
      out := out + EncodeScalar(v);
    }

    method WriteInt(x: Int32)
      modifies this
      ensures out == old(out) + EncodeInt(x)
    {
      WriteScalar(IntV(x));
    }

    method WriteBoolean(b: bool)
      modifies this
      ensures out == old(out) + EncodeBoolean(b)
    {
      WriteScalar(BooleanV(b));
    }

    /** writeString: -1 for null, else the UTF-8 byte count and then the bytes. */
    method WriteString(v: Value)
      requires v.Null? || IsWritableString(v)
      modifies this
      ensures out == old(out) + EncodeString(v)
    {
      if v.Null? {
        WriteInt(-1);
      } else {
        Utf8.EncodedLengthIsLength(v.text);
        var bytes := Utf8.Encode(v.text);
        WriteInt(|bytes|);
        out := out + bytes;
      }
    }

    /** writeBigDecimal: presence flag, scale, byte count and the two's-complement bytes. */
    method WriteDecimal(v: Value)
      requires v.Null? || IsWritableDecimal(v)
      modifies this
      ensures out == old(out) + EncodeDecimal(v)
    {
      WriteBoolean(!v.Null?);
      if !v.Null? {
        WriteInt(v.dec.scale);
        var unscaled := TwosComplement.ToByteArray(v.dec.unscaled);
        WriteInt(|unscaled|);
        out := out + unscaled;
      }
    }

    /** writeLocalDate: presence flag, then the epoch day. */
    method WriteDate(v: Value)
      requires v.Null? || v.DateV?
      modifies this
      ensures out == old(out) + EncodeDate(v)
    {
      WriteBoolean(!v.Null?);
      if !v.Null? {
        WriteScalar(LongV(v.day));
      }
    }

    /** The write method for a field of kind k. */
    method Write(k: Kind, v: Value)
      requires Conforms(v, k)
      modifies this
      ensures out == old(out) + Encode(k, v)
      decreases KindSize(k), 2
    {
      match k
      case StringK => WriteString(v);
      case DecimalK => WriteDecimal(v);
      case DateK => WriteDate(v);
      case NestedK(fs) => WriteNested(fs, v);
      case ListK(e) => WriteList(e, v);
      case MapK(a, b) => WriteMap(a, b, v);
      case _ => WriteScalar(v);
    }

    /** A Dormant's write(Serde): each field with the write method of its kind, in order. */
    method WriteFields(ks: seq<Kind>, vs: seq<Value>)
      requires ConformsAll(vs, ks)
      modifies this
      ensures out == old(out) + EncodeFields(ks, vs)
      decreases KindsSize(ks) + 1, 0
    {
      var i := 0;
      while i < |ks|
        invariant 0 <= i <= |ks| == |vs|
        invariant ConformsAll(vs[i..], ks[i..])
        invariant out + EncodeFields(ks[i..], vs[i..]) == old(out) + EncodeFields(ks, vs)
      {
        EncodeFieldsStep(ks, vs, i, out);
        KindsSizeElem(ks, i);
        Write(ks[i], vs[i]);
        i := i + 1;
      }
    }

    /** writeDormant: presence flag, then the nested object's own write, with no envelope. */
    method WriteNested(fs: seq<Kind>, v: Value)
      requires Conforms(v, NestedK(fs))
      modifies this
      ensures out == old(out) + EncodeNested(fs, v)
      decreases KindSize(NestedK(fs)), 1
    {
      WriteBoolean(!v.Null?);
      if !v.Null? {
        WriteFields(fs, v.fields);
      }
    }

    /** The loop of writeList: each element with the write method of kind e. */
    method WriteElems(e: Kind, elems: seq<Value>)
      requires ElemsConform(elems, e)
      modifies this
      ensures out == old(out) + EncodeElems(e, elems)
      decreases KindSize(e) + 1, 0
    {
      var i := 0;
      while i < |elems|
        invariant 0 <= i <= |elems|
        invariant ElemsConform(elems[i..], e)
        invariant out + EncodeElems(e, elems[i..]) == old(out) + EncodeElems(e, elems)
      {
        EncodeElemsStep(e, elems, i, out);
        Write(e, elems[i]);
        i := i + 1;
      }
      assert elems[i..] == [];
    }

    /** writeList: -1 for null, else the size and each element in order. */
    method WriteList(e: Kind, v: Value)
      requires Conforms(v, ListK(e))
      modifies this
      ensures out == old(out) + EncodeList(e, v)
      decreases KindSize(ListK(e)), 1
    {
      if v.Null? {
        WriteInt(-1);
      } else {
        WriteInt(|v.elems|);
        WriteElems(e, v.elems);
      }
    }

    /** One pass of writeMap's loop: the key, then its value. */
    method WriteEntry(a: Kind, b: Kind, entry: Entry)
      requires Conforms(entry.key, a) && Conforms(entry.value, b)
      modifies this
      ensures out == old(out) + EncodeEntry(a, b, entry)
      decreases KindSize(a) + KindSize(b) + 1, 0
    {
      Write(a, entry.key);
      Write(b, entry.value);
    }

    /** The loop of writeMap: the entries in iteration order. */
    method WriteEntries(a: Kind, b: Kind, entries: seq<Entry>)
      requires EntriesConform(entries, a, b)
      modifies this
      ensures out == old(out) + EncodeEntries(a, b, entries)
      decreases KindSize(a) + KindSize(b) + 2, 0
    {
      var i := 0;
      while i < |entries|
        invariant 0 <= i <= |entries|
        invariant EntriesConform(entries[i..], a, b)
        invariant out + EncodeEntries(a, b, entries[i..]) == old(out) + EncodeEntries(a, b, entries)
      {
        EncodeEntriesStep(a, b, entries, i, out);
        WriteEntry(a, b, entries[i]);
        i := i + 1;
      }
      assert entries[i..] == [];
    }

    /** writeMap: -1 for null, else the size and each key followed by its value. */
    method WriteMap(a: Kind, b: Kind, v: Value)
      requires Conforms(v, MapK(a, b))
      modifies this
      ensures out == old(out) + EncodeMap(a, b, v)
      decreases KindSize(MapK(a, b)), 1
    {
      if v.Null? {
        WriteInt(-1);
      } else {
        assert v.MapV? && |v.entries| < INT_LIMIT && EntriesConform(v.entries, a, b);
        ghost var before := out;
        WriteInt(|v.entries|);
        WriteEntries(a, b, v.entries);
        assert out == before + (EncodeInt(|v.entries|) + EncodeEntries(a, b, v.entries));
      }
    }
  }

  // ---------------------------------------------------------------------------
  // Reading

  /** The values read so far in front of what the rest of a read gives. */
  function Prepend(acc: seq<Value>, d: DecodedSeq): (r: DecodedSeq)
    ensures d.FailSeq? ==> r == d
    ensures d.GotSeq? ==> r == GotSeq(acc + d.values, d.next)
  {
    match d
    case FailSeq(f) => FailSeq(f)
    case GotSeq(vs, q) => GotSeq(acc + vs, q)
  }

  function PrependEntries(acc: seq<Entry>, d: DecodedEntries): (r: DecodedEntries)
    ensures d.FailEntries? ==> r == d
    ensures d.GotEntries? ==> r == GotEntries(acc + d.entries, d.next)
  {
    match d
    case FailEntries(f) => FailEntries(f)
    case GotEntries(es, q) => GotEntries(acc + es, q)
  }

  lemma PrependAppend(acc: seq<Value>, v: Value, d: DecodedSeq)
    ensures Prepend(acc, Prepend([v], d)) == Prepend(acc + [v], d)
  {
    if d.GotSeq? {
      assert acc + ([v] + d.values) == acc + [v] + d.values;
    }
  }

  /** One more element read after acc, in readList's loop. */
  lemma ElemsStep(e: Kind, n: nat, acc: seq<Value>, s: seq<Byte>, p: nat)
    requires n > 0
    ensures var d := Decode(e, s, p);
      && (d.Fail? ==> Prepend(acc, DecodeElems(e, n, s, p)) == FailSeq(d.fault))
      && (d.Got? ==> Prepend(acc, DecodeElems(e, n, s, p)) == Prepend(acc + [d.value], DecodeElems(e, n - 1, s, d.next)))
  {
    var d := Decode(e, s, p);
    if d.Got? {
      PrependAppend(acc, d.value, DecodeElems(e, n - 1, s, d.next));
    }
  }

  lemma PrependEntriesAppend(acc: seq<Entry>, e: Entry, d: DecodedEntries)
    ensures PrependEntries(acc, PrependEntries([e], d)) == PrependEntries(acc + [e], d)
  {
    if d.GotEntries? {
      assert acc + ([e] + d.entries) == acc + [e] + d.entries;
    }
  }

  /** One more entry read after acc, in readMap's loop. */
  lemma EntriesStep(a: Kind, b: Kind, n: nat, acc: seq<Entry>, s: seq<Byte>, p: nat)
    requires n > 0
    ensures var e := DecodeEntry(a, b, s, p);
      && (e.FailEntry? ==> PrependEntries(acc, DecodeEntries(a, b, n, s, p)) == FailEntries(e.fault))
      && (e.GotEntry? ==>
            PrependEntries(acc, DecodeEntries(a, b, n, s, p))
            == PrependEntries(acc + [Entry(e.key, e.val)], DecodeEntries(a, b, n - 1, s, e.next)))
  {
    var e := DecodeEntry(a, b, s, p);
    if e.GotEntry? {
      PrependEntriesAppend(acc, Entry(e.key, e.val), DecodeEntries(a, b, n - 1, s, e.next));
    }
  }

  /** An object that a readX(consumer) call hands its value to. */
  class Consumer {
    var accepted: seq<Value>

    constructor()
      ensures accepted == []
    {
      accepted := [];
    }
  }

  /** A session bound to a DataInputStream over data; pos is the next byte to read. */
  class ReaderSession {
    const data: seq<Byte>
    var pos: nat

    constructor(bytes: seq<Byte>)
      ensures data == bytes && pos == 0
    {
      data := bytes;
      pos := 0;
    }

    /** readInt, readLong, readFloat, readDouble, readBoolean, readByte, readShort
        and readChar: DataInputStream's fixed-width reads, EOFException when short. */
    method ReadScalar(k: Kind) returns (r: Result<Value, Fault>)
      requires !IsReference(k)
      modifies this
      ensures var d := Decode(k, data, old(pos));
        && (d.Got? ==> r == Ok(d.value) && pos == d.next)
        && (d.Fail? ==> r == Err(d.fault))
    {
      var d := DecodeScalar(k, data, pos);
      if d.Fail? {
        return Err(d.fault);
      }
      pos := d.next;
      return Ok(d.value);
    }

    /** readString: -1 is null, another negative length fails to allocate, and
        the bytes must all be there. */
    method ReadString() returns (r: Result<Value, Fault>)
      modifies this
      ensures var d := DecodeString(data, old(pos));
        && (d.Got? ==> r == Ok(d.value) && pos == d.next)
        && (d.Fail? ==> r == Err(d.fault))
    {
      var n := ReadScalar(IntK);
      if n.Err? {
        return Err(n.error);
      }
      var len := n.value.i;
      if len == -1 {
        return Ok(Null);
      }
      if len < 0 {
        return Err(NegativeArraySize(len));
      }
      if |data| < pos + len {
        return Err(EndOfStream);
      }
      var text := Utf8.Decode(data[pos..pos + len]);
      pos := pos + len;
      return Ok(StringV(text));
    }

    /** readBigDecimal: flag, scale, byte count, then the unscaled value's bytes. */
    method ReadDecimal() returns (r: Result<Value, Fault>)
      modifies this
      ensures var d := DecodeDecimal(data, old(pos));
        && (d.Got? ==> r == Ok(d.value) && pos == d.next)
        && (d.Fail? ==> r == Err(d.fault))
    {
      var present := ReadScalar(BooleanK);
      if present.Err? {
        return Err(present.error);
      }
      if !present.value.flag {
        return Ok(Null);
      }
      var scale := ReadScalar(IntK);
      if scale.Err? {
        return Err(scale.error);
      }
      var n := ReadScalar(IntK);
      if n.Err? {
        return Err(n.error);
      }
      var len := n.value.i;
      if len < 0 {
        return Err(NegativeArraySize(len));
      }
      if |data| < pos + len {
        return Err(EndOfStream);
      }
      if len == 0 {
        return Err(EmptyMagnitude);
      }
      var unscaled := DecodeSigned(data[pos..pos + len]);
      pos := pos + len;
      return Ok(DecimalV(Decimal(unscaled, scale.value.i)));
    }

    /** readLocalDate: flag, then an epoch day that LocalDate.ofEpochDay accepts. */
    method ReadDate() returns (r: Result<Value, Fault>)
      modifies this
      ensures var d := DecodeDate(data, old(pos));
        && (d.Got? ==> r == Ok(d.value) && pos == d.next)
        && (d.Fail? ==> r == Err(d.fault))
    {
      var present := ReadScalar(BooleanK);
      if present.Err? {
        return Err(present.error);
      }
      if !present.value.flag {
        return Ok(Null);
      }
      var day := ReadScalar(LongK);
      if day.Err? {
        return Err(day.error);
      }
      if !(MIN_EPOCH_DAY <= day.value.l <= MAX_EPOCH_DAY) {
        return Err(DateOutOfRange(day.value.l));
      }
      return Ok(DateV(day.value.l));
    }

    /** The read method for a field of kind k. */
    method Read(k: Kind) returns (r: Result<Value, Fault>)
      modifies this
      ensures var d := Decode(k, data, old(pos));
        && (d.Got? ==> r == Ok(d.value) && pos == d.next)
        && (d.Fail? ==> r == Err(d.fault))
      decreases KindSize(k), 2
    {
      match k
      case StringK => r := ReadString();
      case DecimalK => r := ReadDecimal();
      case DateK => r := ReadDate();
      case NestedK(fs) => r := ReadNested(fs);
      case ListK(e) => r := ReadList(e);
      case MapK(a, b) => r := ReadMap(a, b);
      case _ => r := ReadScalar(k);
    }

    /** A Dormant's read(Serde): one read per field kind, in the order they were written. */
    method ReadFields(ks: seq<Kind>) returns (r: Result<seq<Value>, Fault>)
      modifies this
      ensures var d := DecodeFields(ks, data, old(pos));
        && (d.GotSeq? ==> r == Ok(d.values) && pos == d.next)
        && (d.FailSeq? ==> r == Err(d.fault))
      decreases KindsSize(ks) + 1, 0
    {
      var acc := [];
      var i := 0;
      while i < |ks|
        invariant 0 <= i <= |ks|
        invariant DecodeFields(ks, data, old(pos)) == Prepend(acc, DecodeFields(ks[i..], data, pos))
      {
        assert ks[i..][1..] == ks[i + 1..];
        KindsSizeElem(ks, i);
        var v := Read(ks[i]);
        if v.Err? {
          return Err(v.error);
        }
        acc := acc + [v.value];
        i := i + 1;
      }
      assert ks[i..] == [] && acc + [] == acc;
      return Ok(acc);
    }

    /** readDormant(factory): null when the flag is false, else a fresh object
        populated by its own read. */
    method ReadNested(fs: seq<Kind>) returns (r: Result<Value, Fault>)
      modifies this
      ensures var d := DecodeNested(fs, data, old(pos));
        && (d.Got? ==> r == Ok(d.value) && pos == d.next)
        && (d.Fail? ==> r == Err(d.fault))
      decreases KindSize(NestedK(fs)), 1
    {
      var present := ReadScalar(BooleanK);
      if present.Err? {
        return Err(present.error);
      }
      if !present.value.flag {
        return Ok(Null);
      }
      var fields := ReadFields(fs);
      if fields.Err? {
        return Err(fields.error);
      }
      return Ok(NestedV(fields.value));
    }

    /** The loop of readList: n reads of kind e, in order. */
    method ReadElems(e: Kind, n: nat) returns (r: Result<seq<Value>, Fault>)
      modifies this
      ensures var d := DecodeElems(e, n, data, old(pos));
        && (d.GotSeq? ==> r == Ok(d.values) && pos == d.next)
        && (d.FailSeq? ==> r == Err(d.fault))
      decreases KindSize(e) + 1, 0
    {
      var list := [];
      var i := 0;
      while i < n
        invariant 0 <= i <= n
        invariant DecodeElems(e, n, data, old(pos)) == Prepend(list, DecodeElems(e, n - i, data, pos))
      {
        ElemsStep(e, n - i, list, data, pos);
        var v := Read(e);
        if v.Err? {
          return Err(v.error);
        }
        list := list + [v.value];
        i := i + 1;
      }
      assert list + [] == list;
      return Ok(list);
    }

    /** readList: -1 is null, another negative size is refused, else size elements in order. */
    method ReadList(e: Kind) returns (r: Result<Value, Fault>)
      modifies this
      ensures var d := DecodeList(e, data, old(pos));
        && (d.Got? ==> r == Ok(d.value) && pos == d.next)
        && (d.Fail? ==> r == Err(d.fault))
      decreases KindSize(ListK(e)), 1
    {
      var n := ReadScalar(IntK);
      if n.Err? {
        return Err(n.error);
      }
      var size := n.value.i;
      if size == -1 {
        return Ok(Null);
      }
      if size < 0 {
        return Err(IllegalCapacity(size));
      }
      var elems := ReadElems(e, size);
      if elems.Err? {
        return Err(elems.error);
      }
      return Ok(ListV(elems.value));
    }

    /** One pass of readMap's loop: a key, then its value. */
    method ReadEntry(a: Kind, b: Kind) returns (r: Result<Entry, Fault>)
      modifies this
      ensures var d := DecodeEntry(a, b, data, old(pos));
        && (d.GotEntry? ==> r == Ok(Entry(d.key, d.val)) && pos == d.next)
        && (d.FailEntry? ==> r == Err(d.fault))
      decreases KindSize(a) + KindSize(b) + 1, 1
    {
      var key := Read(a);
      if key.Err? {
        return Err(key.error);
      }
      var val := Read(b);
      if val.Err? {
        return Err(val.error);
      }
      return Ok(Entry(key.value, val.value));
    }

    /** The loop of readMap: n keys, each followed by its value. */
    method ReadEntries(a: Kind, b: Kind, n: nat) returns (r: Result<seq<Entry>, Fault>)
      modifies this
      ensures var d := DecodeEntries(a, b, n, data, old(pos));
        && (d.GotEntries? ==> r == Ok(d.entries) && pos == d.next)
        && (d.FailEntries? ==> r == Err(d.fault))
      decreases KindSize(a) + KindSize(b) + 2, 0
    {
      var entries := [];
      var i := 0;
      while i < n
        invariant 0 <= i <= n
        invariant DecodeEntries(a, b, n, data, old(pos))
          == PrependEntries(entries, DecodeEntries(a, b, n - i, data, pos))
      {
        EntriesStep(a, b, n - i, entries, data, pos);
        var entry := ReadEntry(a, b);
        if entry.Err? {
          return Err(entry.error);
        }
        entries := entries + [entry.value];
        i := i + 1;
      }
      assert entries + [] == entries;
      return Ok(entries);
    }

    /** readMap: -1 is null, another negative size is refused, else size keys
        each followed by its value; the entries come back in the order written. */
    method ReadMap(a: Kind, b: Kind) returns (r: Result<Value, Fault>)
      modifies this
      ensures var d := DecodeMap(a, b, data, old(pos));
        && (d.Got? ==> r == Ok(d.value) && pos == d.next)
        && (d.Fail? ==> r == Err(d.fault))
      decreases KindSize(MapK(a, b)), 1
    {
      var n := ReadScalar(IntK);
      if n.Err? {
        return Err(n.error);
      }
      var size := n.value.i;
      if size == -1 {
        return Ok(Null);
      }
      if size < 0 {
        return Err(IllegalCapacity(size));
      }
      var entries := ReadEntries(a, b, size);
      if entries.Err? {
        return Err(entries.error);
      }
      return Ok(MapV(entries.value));
    }

    /**
     * The readX(consumer) defaults of Serde, readDormant(factory, consumer),
     * readList(reader, consumer) and readMap(kr, vr, consumer) among them:
     * the consumer receives exactly what readX returns, and the same session
     * comes back. A failing read never reaches the consumer.
     */
    method ReadInto(k: Kind, consumer: Consumer) returns (r: Result<ReaderSession, Fault>)
      modifies this, consumer
      ensures var d := Decode(k, data, old(pos));
        && (d.Got? ==> r == Ok(this) && pos == d.next && consumer.accepted == old(consumer.accepted) + [d.value])
        && (d.Fail? ==> r == Err(d.fault) && consumer.accepted == old(consumer.accepted))
    {
      var v := Read(k);
      if v.Err? {
        return Err(v.error);
      }
      consumer.accepted := consumer.accepted + [v.value];
      return Ok(this);
    }
  }
}
