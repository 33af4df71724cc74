// PositionCollector: a stream collector that groups trades into positions in
// a TreeMap keyed by (market:code, opening date), appending each trade to the
// first open position of its instrument or opening a new one.

module PositionCollectors {
  import opened Wrappers
  import opened Positions
  import Maps

  /** String.compareTo: the difference of the first differing characters, or
      of the lengths when one string is a prefix of the other. */
  function CompareStrings(a: string, b: string): int
  {
    if a == [] || b == [] then |a| - |b|
    else if a[0] != b[0] then a[0] as int - b[0] as int
    else CompareStrings(a[1..], b[1..])
  }

  lemma {:induction false} CompareStringsZero(a: string, b: string)
    ensures CompareStrings(a, b) == 0 <==> a == b
  {
    if a != [] && b != [] && a[0] == b[0] {
      CompareStringsZero(a[1..], b[1..]);
      assert a == [a[0]] + a[1..] && b == [b[0]] + b[1..];
    }
  }

  lemma {:induction false} CompareStringsAntisymmetric(a: string, b: string)
    ensures CompareStrings(b, a) == -CompareStrings(a, b)
  {
    if a != [] && b != [] && a[0] == b[0] {
      CompareStringsAntisymmetric(a[1..], b[1..]);
    }
  }

  lemma {:induction false} CompareStringsTransitive(a: string, b: string, c: string)
    requires CompareStrings(a, b) < 0 && CompareStrings(b, c) < 0
    ensures CompareStrings(a, c) < 0
  {
    if a != [] && b != [] && c != [] && a[0] == b[0] && b[0] == c[0] {
      CompareStringsTransitive(a[1..], b[1..], c[1..]);
    }
  }

  /** The TreeMap key: "market:code" and the opening date. */
  datatype Key = Key(code: string, date: Date)
  {
    /** Key.compareTo: by date, ties broken by the code string. Only the sign
        of the date comparison is significant. */
    function CompareTo(other: Key): int
    {
      if date != other.date then date - other.date else CompareStrings(code, other.code)
    }
  }

  predicate Less(a: Key, b: Key)
  {
    a.CompareTo(b) < 0
  }

  /** compareTo is a strict total order consistent with equality. */
  lemma KeyOrder(a: Key, b: Key, c: Key)
    ensures a.CompareTo(b) == 0 <==> a == b
    ensures b.CompareTo(a) == -a.CompareTo(b)
    ensures Less(a, b) && Less(b, c) ==> Less(a, c)
  {
    CompareStringsZero(a.code, b.code);
    CompareStringsAntisymmetric(a.code, b.code);
    if Less(a, b) && Less(b, c) && a.date == b.date && b.date == c.date {
      CompareStringsTransitive(a.code, b.code, c.code);
    }
  }

  datatype Entry = Entry(key: Key, position: Position)

  /** The TreeMap's entries in key order. */
  predicate Sorted(es: seq<Entry>)
  {
    forall i, j :: 0 <= i < j < |es| ==> Less(es[i].key, es[j].key)
  }

  /** The first index whose key is not below k. */
  function PutIndex(es: seq<Entry>, k: Key): (j: nat)
    ensures j <= |es|
    ensures forall i :: 0 <= i < j ==> Less(es[i].key, k)
    ensures j < |es| ==> !Less(es[j].key, k)
  {
    if es == [] || !Less(es[0].key, k) then 0 else 1 + PutIndex(es[1..], k)
  }

  lemma ReplaceFacts(es: seq<Entry>, j: nat, e: Entry)
    requires Sorted(es) && j < |es| && es[j].key == e.key
    ensures var r := es[j := e];
      && Sorted(r) && e in r
      && (forall i :: 0 <= i < |r| ==> r[i] == e || r[i] in es)
      && (forall x :: x in es && x.key != e.key ==> x in r)
  {
    var r := es[j := e];
    assert r[j] == e;
    assert forall i :: 0 <= i < |r| && i != j ==> r[i] == es[i] && es[i] in es;
    forall x | x in es && x.key != e.key
      ensures x in r
    {
      var i :| 0 <= i < |es| && es[i] == x;
      assert r[i] == x;
    }
  }

  lemma InsertFacts(es: seq<Entry>, j: nat, e: Entry)
    requires Sorted(es) && j <= |es|
    requires forall i :: 0 <= i < j ==> Less(es[i].key, e.key)
    requires j < |es| ==> !Less(es[j].key, e.key) && es[j].key != e.key
    ensures var r := es[..j] + [e] + es[j..];
      && Sorted(r) && e in r
      && (forall i :: 0 <= i < |r| ==> r[i] == e || r[i] in es)
      && (forall x :: x in es ==> x in r)
  {
    var k := e.key;
    var r := es[..j] + [e] + es[j..];
    assert r[j] == e;
    assert j < |es| ==> Less(k, es[j].key) by {
      if j < |es| {
        KeyOrder(es[j].key, k, k);
      }
    }
    forall a, b | 0 <= a < b < |r|
      ensures Less(r[a].key, r[b].key)
    {
      if a < j && b > j + 1 {
        KeyOrder(k, es[j].key, es[b - 1].key);
        KeyOrder(es[a].key, k, es[b - 1].key);
      } else if a == j && b > j + 1 {
        KeyOrder(k, es[j].key, es[b - 1].key);
      }
    }
    forall i | 0 <= i < |r|
      ensures r[i] == e || r[i] in es
    {
      if i < j {
        assert r[i] == es[i];
      } else if i > j {
        assert r[i] == es[i - 1];
      }
    }
    forall x | x in es
      ensures x in r
    {
      var i :| 0 <= i < |es| && es[i] == x;
      if i < j {
        assert r[i] == x;
      } else {
        assert r[i + 1] == x;
      }
    }
  }

  /** TreeMap.put: replace the value under k, or insert k in order. */
  function Put(es: seq<Entry>, k: Key, v: Position): (r: seq<Entry>)
    requires Sorted(es)
    ensures Sorted(r) && Entry(k, v) in r
    ensures forall i :: 0 <= i < |r| ==> r[i] == Entry(k, v) || r[i] in es
    ensures forall e :: e in es && e.key != k ==> e in r
  {
    var j := PutIndex(es, k);
    if j < |es| && es[j].key == k then
      ReplaceFacts(es, j, Entry(k, v));
      es[j := Entry(k, v)]
    else
      InsertFacts(es, j, Entry(k, v));
      es[..j] + [Entry(k, v)] + es[j..]
  }

  /** Same market and code. */
  predicate SameInstrument(p: Position, t: Trade)
  {
    p.market == t.market && p.code == t.code
  }

  /** findFirst over the values in key order: the first open position of t's
      instrument. */
  function FindOpen(es: seq<Entry>, t: Trade): (r: Option<nat>)
    ensures r.Some? ==>
              r.value < |es| && SameInstrument(es[r.value].position, t) && es[r.value].position.IsOpen()
    ensures r.Some? ==> forall i :: 0 <= i < r.value ==>
      !(SameInstrument(es[i].position, t) && es[i].position.IsOpen())
    ensures r.None? ==> forall i :: 0 <= i < |es| ==>
      !(SameInstrument(es[i].position, t) && es[i].position.IsOpen())
  {
    if es == [] then None
    else if SameInstrument(es[0].position, t) && es[0].position.IsOpen() then Some(0)
    else
      match FindOpen(es[1..], t)
      case None => None
      case Some(i) => Some(i + 1)
  }

  function KeyOf(t: Trade): Key
  {
    Key(t.market + ":" + t.code, t.date)
  }

  /**
   * The accumulator: the trade joins the first open position of its
   * instrument, with no key added; otherwise Position.of(t) is put under
   * KeyOf(t), replacing any entry already under that key.
   */
  function Accumulate(es: seq<Entry>, t: Trade): (r: seq<Entry>)
    requires Sorted(es)
    ensures Sorted(r)
  {
    match FindOpen(es, t)
    case Some(i) =>
      var r := es[i := Entry(es[i].key, es[i].position.AddTrade(t))];
      assert forall a, b :: 0 <= a < b < |r| ==> r[a].key == es[a].key && r[b].key == es[b].key;
      r
    case None => Put(es, KeyOf(t), Of(t))
  }

  /** The accumulator applied to each trade in turn, from an empty TreeMap. */
  function Collected(ts: seq<Trade>): (es: seq<Entry>)
    ensures Sorted(es)
  {
    if ts == [] then [] else Accumulate(Collected(ts[..|ts| - 1]), ts[|ts| - 1])
  }

  /** The finisher: the values in key order. */
  function Values(es: seq<Entry>): (ps: seq<Position>)
    ensures |ps| == |es| && forall i :: 0 <= i < |es| ==> ps[i] == es[i].position
  {
    if es == [] then [] else [es[0].position] + Values(es[1..])
  }

  /** The TreeMap as a map. */
  function ToMap(es: seq<Entry>): map<Key, Position>
  {
    if es == [] then map[] else ToMap(es[..|es| - 1])[es[|es| - 1].key := es[|es| - 1].position]
  }

  /** The combiner is Maps.merge(): the union of maps with no shared key, and
      a failure on any shared key. */
  function Combine(l: seq<Entry>, r: seq<Entry>): (res: Result<map<Key, Position>, Maps.Failure>)
    ensures res.Err? <==> ToMap(l).Keys * ToMap(r).Keys != {}
    ensures res.Ok? ==> res.value.Keys == ToMap(l).Keys + ToMap(r).Keys
  {
    var ml, mr := ToMap(l), ToMap(r);
    var m := Maps.MergeStrict(ml, mr);
    assert m.Err? <==> ml.Keys * mr.Keys != {} by {
      if ml.Keys * mr.Keys != {} {
        var k :| k in ml.Keys * mr.Keys;
        assert k in ml && k in mr;
      }
      if m.Err? {
        var k :| k in ml && k in mr;
        assert k in ml.Keys * mr.Keys;
      }
    }
    assert m.Ok? ==> m.value.Keys == (ml + mr).Keys;
    m
  }

  /** The TreeMap the collector accumulates into. */
  class PositionAccumulator {
    var entries: seq<Entry>

    /** supplier: an empty TreeMap. */
    constructor()
      ensures entries == []
    {
      entries := [];
    }

    /** accumulator: scans the values in key order for an open position of
        the trade's instrument. */
    method Accept(t: Trade)
      requires Sorted(entries)
      modifies this
      ensures entries == Accumulate(old(entries), t)
    {
      var i := 0;
      while i < |entries| && !(SameInstrument(entries[i].position, t) && entries[i].position.IsOpen())
        invariant 0 <= i <= |entries|
        invariant forall j :: 0 <= j < i ==>
          !(SameInstrument(entries[j].position, t) && entries[j].position.IsOpen())
      {
        i := i + 1;
      }
      FindOpenIsFirst(entries, t, i);
      if i < |entries| {
        var e := entries[i];
        entries := entries[i := Entry(e.key, e.position.AddTrade(t))];
      } else {
        entries := Put(entries, KeyOf(t), Of(t));
      }
    }
  }

  /** FindOpen is the first index satisfying the scan's test. */
  lemma {:induction false} FindOpenIsFirst(es: seq<Entry>, t: Trade, i: nat)
    requires i <= |es|
    requires forall j :: 0 <= j < i ==> !(SameInstrument(es[j].position, t) && es[j].position.IsOpen())
    requires i < |es| ==> SameInstrument(es[i].position, t) && es[i].position.IsOpen()
    ensures i < |es| ==> FindOpen(es, t) == Some(i)
    ensures i == |es| ==> FindOpen(es, t) == None
  {
    if es != [] && i > 0 {
      FindOpenIsFirst(es[1..], t, i - 1);
    }
  }

  /** collect(new PositionCollector()): the positions in key order. */
  method Collect(trades: seq<Trade>) returns (positions: seq<Position>)
    ensures positions == Values(Collected(trades))
  {
    var acc := new PositionAccumulator();
    var i := 0;
    while i < |trades|
      invariant 0 <= i <= |trades|
      invariant acc.entries == Collected(trades[..i])
    {
      assert trades[..i + 1][..i] == trades[..i];
      acc.Accept(trades[i]);
      i := i + 1;
    }
    assert trades[..|trades|] == trades;
    positions := Values(acc.entries);
  }

  /** Each entry sits under its instrument and its position's opening date,
      and holds only trades of that instrument. */
  predicate EntryOk(e: Entry)
  {
    && e.position.trades != []
    && e.key == KeyOf(e.position.trades[0])
    && forall t :: t in e.position.trades ==> SameInstrument(e.position, t)
  }

  predicate Coherent(es: seq<Entry>)
  {
    forall i :: 0 <= i < |es| ==> EntryOk(es[i])
  }

  lemma AccumulateCoherent(es: seq<Entry>, t: Trade)
    requires Sorted(es) && Coherent(es)
    ensures Coherent(Accumulate(es, t))
  {
    var r := Accumulate(es, t);
    match FindOpen(es, t)
    case Some(i) =>
      var p := es[i].position.AddTrade(t);
      assert p.trades[0] == es[i].position.trades[0];
      assert forall x :: x in p.trades ==> x in es[i].position.trades || x == t;
      assert EntryOk(Entry(es[i].key, p));
      assert r == es[i := Entry(es[i].key, p)];
    case None =>
      var p := Of(t);
      assert EntryOk(Entry(KeyOf(t), p));
      assert r == Put(es, KeyOf(t), p);
      forall j | 0 <= j < |r|
        ensures EntryOk(r[j])
      {
        if r[j] != Entry(KeyOf(t), p) {
          var k :| 0 <= k < |es| && es[k] == r[j];
          assert EntryOk(es[k]);
        }
      }
  }

  /** Every collected position is non-empty, keyed by its opening date, and
      holds trades of one instrument; the finisher lists them by opening date. */
  lemma {:induction false} CollectedCoherent(ts: seq<Trade>)
    ensures Coherent(Collected(ts))
    ensures forall i, j :: 0 <= i < j < |Collected(ts)| ==>
      Values(Collected(ts))[i].OpenDate() <= Values(Collected(ts))[j].OpenDate()
  {
    if ts != [] {
      CollectedCoherent(ts[..|ts| - 1]);
      AccumulateCoherent(Collected(ts[..|ts| - 1]), ts[|ts| - 1]);
    }
    var es := Collected(ts);
    forall i, j | 0 <= i < j < |es|
      ensures Values(es)[i].OpenDate() <= Values(es)[j].OpenDate()
    {
      assert Less(es[i].key, es[j].key);
    }
  }

  lemma CollectedOne(t: Trade)
    ensures Collected([t]) == [Entry(KeyOf(t), Of(t))]
  {
    assert [t][..0] == [];
    assert PutIndex([], KeyOf(t)) == 0;
    assert Put([], KeyOf(t), Of(t)) == [] + [Entry(KeyOf(t), Of(t))] + [];
  }

  /** Buying, selling the same size, then buying again on a later date gives
      two positions: the closed one receives no further trade. */
  lemma CloseThenBuyTwoPositions(b1: Trade, s1: Trade, b2: Trade)
    requires b1.side == Sides.Buy && s1.side == Sides.Sell && b2.side == Sides.Buy
    requires b1.size == s1.size && b1.size != 0
    requires b1.market == s1.market == b2.market && b1.code == s1.code == b2.code
    requires b1.date < b2.date
    ensures Collected([b1, s1, b2]) ==
      [Entry(KeyOf(b1), Of(b1).AddTrade(s1)), Entry(KeyOf(b2), Of(b2))]
  {
    var ts := [b1, s1, b2];
    assert ts[..2] == [b1, s1] && ts[..2][..1] == [b1] && [b1][..0] == [];
    var e1 := Collected([b1]);
    CollectedOne(b1);
    var e2 := Collected([b1, s1]);
    assert FindOpen(e1, s1) == Some(0);
    RoundTripPnl(b1, s1);
    assert e2 == [Entry(KeyOf(b1), Of(b1).AddTrade(s1))];
    assert FindOpen(e2, b2) == None;
    assert PutIndex(e2, KeyOf(b2)) == 1;
  }

  /** The same code in two markets gives two positions. */
  lemma MarketsSeparate(t1: Trade, t2: Trade)
    requires t1.market != t2.market && t1.size != 0
    requires t1.date < t2.date
    ensures Collected([t1, t2]) == [Entry(KeyOf(t1), Of(t1)), Entry(KeyOf(t2), Of(t2))]
  {
    var ts := [t1, t2];
    assert ts[..1] == [t1] && [t1][..0] == [];
    var e1 := Collected([t1]);
    CollectedOne(t1);
    assert FindOpen(e1, t2) == None;
    assert PutIndex(e1, KeyOf(t2)) == 1;
  }

  /** A re-opening on the date of the position it follows lands on the same
      key and replaces that position: the earlier trades are no longer
      collected. */
  lemma SameDateReopenOverwrites(b1: Trade, s1: Trade, b2: Trade)
    requires b1.side == Sides.Buy && s1.side == Sides.Sell && b2.side == Sides.Buy
    requires b1.size == s1.size && b1.size != 0
    requires b1.market == s1.market == b2.market && b1.code == s1.code == b2.code
    requires b1.date == b2.date
    ensures Collected([b1, s1, b2]) == [Entry(KeyOf(b2), Of(b2))]
    ensures Values(Collected([b1, s1, b2])) == [Of(b2)]
  {
    var ts := [b1, s1, b2];
    assert ts[..2] == [b1, s1] && ts[..2][..1] == [b1] && [b1][..0] == [];
    var e1 := Collected([b1]);
    CollectedOne(b1);
    var e2 := Collected([b1, s1]);
    assert FindOpen(e1, s1) == Some(0);
    RoundTripPnl(b1, s1);
    assert FindOpen(e2, b2) == None;
    assert KeyOf(b2) == KeyOf(b1);
    KeyOrder(KeyOf(b1), KeyOf(b2), KeyOf(b2));
    assert PutIndex(e2, KeyOf(b2)) == 0;
  }
}
