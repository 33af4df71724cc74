// Fixed-capacity ring buffers: an array overwritten slot by slot at
// counter % capacity. An empty slot (null, or NaN for the primitive buffer)
// is None.
//
// The invariant shared by the three buffers: the storage read from the
// current offset onwards is the last `capacity` entries of the initial
// slots followed by every value written so far (Window below).

module RingBuffers {
  import opened Wrappers

  lemma {:induction false} PresentAppend<T>(a: seq<Option<T>>, b: seq<Option<T>>)
    ensures Present(a + b) == Present(a) + Present(b)
  {
    if a == [] {
      assert a + b == b;
    } else {
      var head := if a[0].Some? then [a[0].value] else [];
      assert (a + b)[0] == a[0];
      assert (a + b)[1..] == a[1..] + b;
      PresentAppend(a[1..], b);
      assert Present(a + b) == head + Present(a[1..] + b);
      assert Present(a) == head + Present(a[1..]);
    }
  }

  function Somes<T>(ws: seq<T>): (r: seq<Option<T>>)
    ensures |r| == |ws| && forall i :: 0 <= i < |ws| ==> r[i] == Some(ws[i])
  {
    if ws == [] then [] else [Some(ws[0])] + Somes(ws[1..])
  }

  lemma {:induction false} PresentSomes<T>(ws: seq<T>)
    ensures Present(Somes(ws)) == ws
  {
    if ws != [] {
      assert Somes(ws)[1..] == Somes(ws[1..]);
      PresentSomes(ws[1..]);
    }
  }

  predicate AllEmpty<T>(s: seq<Option<T>>)
  {
    forall i :: 0 <= i < |s| ==> s[i].None?
  }

  lemma {:induction false} PresentAllEmpty<T>(s: seq<Option<T>>)
    requires AllEmpty(s)
    ensures Present(s) == []
  {
    if s != [] {
      PresentAllEmpty(s[1..]);
    }
  }

  /** Arrays.stream(storage, o, length) followed by Arrays.stream(storage, 0, o). */
  function Rotate<T>(s: seq<Option<T>>, o: nat): (r: seq<Option<T>>)
    requires o <= |s|
    ensures |r| == |s|
  {
    s[o..] + s[..o]
  }

  /** The offset after one more write. */
  function Next(o: nat, cap: nat): nat
  {
    if o + 1 == cap then 0 else o + 1
  }

  /** The initial slots followed by the writes, seen through a window of the
      last |initial| entries: the slots oldest first. */
  ghost function Window<T>(initial: seq<Option<T>>, ws: seq<T>): (r: seq<Option<T>>)
    ensures |r| == |initial|
  {
    (initial + Somes(ws))[|ws|..]
  }

  lemma WindowStep<T>(initial: seq<Option<T>>, ws: seq<T>, x: T)
    requires |initial| > 0
    ensures Window(initial, ws + [x]) == Window(initial, ws)[1..] + [Some(x)]
  {
    assert Somes(ws + [x]) == Somes(ws) + [Some(x)];
    assert initial + Somes(ws + [x]) == (initial + Somes(ws)) + [Some(x)];
  }

  /** Overwriting the slot at the offset and advancing it drops the oldest
      entry of the rotated view and appends the new one. */
  lemma RotateWrite<T>(s: seq<Option<T>>, o: nat, x: T)
    requires o < |s|
    ensures Rotate(s[o := Some(x)], Next(o, |s|)) == Rotate(s, o)[1..] + [Some(x)]
  {
    var s' := s[o := Some(x)];
    if o + 1 == |s| {
      assert s'[0..] == s[..o] + [Some(x)];
    } else {
      assert s'[o + 1..] == s[o + 1..];
      assert s'[..o + 1] == s[..o] + [Some(x)];
    }
  }

  /** The view of a buffer that started empty holds the last min(n, capacity)
      writes, oldest first. */
  lemma WindowFromEmpty<T>(initial: seq<Option<T>>, ws: seq<T>)
    requires AllEmpty(initial)
    ensures |ws| <= |initial| ==> Present(Window(initial, ws)) == ws
    ensures |ws| >= |initial| ==> Present(Window(initial, ws)) == ws[|ws| - |initial|..]
  {
    var all := initial + Somes(ws);
    if |ws| <= |initial| {
      assert all[|ws|..] == initial[|ws|..] + Somes(ws);
      PresentAppend(initial[|ws|..], Somes(ws));
      PresentAllEmpty(initial[|ws|..]);
    } else {
      assert all[|ws|..] == Somes(ws[|ws| - |initial|..]);
      PresentSomes(ws[|ws| - |initial|..]);
    }
    PresentSomes(ws);
  }

  /** The entry k places back from the newest in the window. */
  lemma WindowRecent<T>(initial: seq<Option<T>>, ws: seq<T>, k: nat)
    requires 1 <= k <= |initial|
    ensures k <= |ws| ==> Window(initial, ws)[|initial| - k] == Some(ws[|ws| - k])
    ensures k > |ws| ==> Window(initial, ws)[|initial| - k] == initial[|ws| + |initial| - k]
  {
  }

  /** The oldest entry in the window: the initial slot until the writes wrap,
      then the write made `capacity` writes ago. */
  lemma WindowOldest<T>(initial: seq<Option<T>>, ws: seq<T>)
    requires |initial| > 0
    ensures |ws| < |initial| ==> Window(initial, ws)[0] == initial[|ws|]
    ensures |ws| >= |initial| ==> Window(initial, ws)[0] == Some(ws[|ws| - |initial|])
  {
  }

  lemma MulAtLeast(a: int, m: int)
    requires a >= 1 && m > 0
    ensures a * m >= m
  {
  }

  /** The remainder is the r of any decomposition x == q * m + r with 0 <= r < m. */
  lemma ModUnique(x: int, m: int, q: int, r: int)
    requires m > 0 && 0 <= r < m && x == q * m + r
    ensures x % m == r
  {
    var q0, r0 := x / m, x % m;
    assert x == q0 * m + r0;
    assert (q0 - q) * m == q0 * m - q * m;
    if q0 > q {
      MulAtLeast(q0 - q, m);
    } else if q0 < q {
      MulAtLeast(q - q0, m);
    }
  }

  lemma ModNext(c: nat, m: nat)
    requires m > 0
    ensures (c + 1) % m == Next(c % m, m)
  {
    var q, o := c / m, c % m;
    if o + 1 == m {
      ModUnique(c + 1, m, q + 1, 0);
    } else {
      ModUnique(c + 1, m, q, o + 1);
    }
  }

  lemma ModAdd(x: int, y: int, m: int)
    requires m > 0
    ensures (x + y) % m == (x % m + y % m) % m
  {
    var qx, rx, qy, ry := x / m, x % m, y / m, y % m;
    var q2, r2 := (rx + ry) / m, (rx + ry) % m;
    assert x + y == (qx + qy + q2) * m + r2;
    ModUnique(x + y, m, qx + qy + q2, r2);
  }

  /** An entry of the rotated view is the slot at (o + j) % capacity. */
  lemma RotateIndex<T>(s: seq<Option<T>>, o: nat, j: nat)
    requires o < |s| && j < |s|
    ensures Rotate(s, o)[j] == s[(o + j) % |s|]
  {
    if o + j < |s| {
      ModUnique(o + j, |s|, 0, o + j);
    } else {
      ModUnique(o + j, |s|, 1, o + j - |s|);
    }
  }

  /** Slot (c + |s| + n) % |s| is entry (|s| + n) % |s| of the view rotated at c. */
  lemma RotateRead<T>(s: seq<Option<T>>, c: nat, n: int)
    requires |s| > 0 && c + |s| + n >= 0
    ensures s[(c + |s| + n) % |s|] == Rotate(s, c % |s|)[(|s| + n) % |s|]
  {
    ModAdd(c, |s| + n, |s|);
    RotateIndex(s, c % |s|, (|s| + n) % |s|);
  }

  /** SimpleRingBuffer over a caller's array, null slots being empty. */
  class SimpleRingBuffer<T> {
    const storage: array<Option<T>>
    var counter: nat
    ghost var initial: seq<Option<T>>
    ghost var written: seq<T>

    ghost predicate Valid()
      reads this, storage
    {
      && storage.Length > 0
      && |initial| == storage.Length
      && counter == |written|
      && Rotate(storage[..], counter % storage.Length) == Window(initial, written)
    }

    constructor(storage: array<Option<T>>)
      requires storage.Length > 0
      ensures Valid() && this.storage == storage && counter == 0
      ensures initial == storage[..] && written == []
    {
      this.storage := storage;
      counter := 0;
      initial := storage[..];
      written := [];
      new;
      assert storage[0..] == storage[..];
    }

    function Capacity(): (n: nat)
      ensures n == storage.Length
    {
      storage.Length
    }

    function Offset(): (o: nat)
      requires storage.Length > 0
      reads this
      ensures o < storage.Length
    {
      counter % storage.Length
    }

    predicate IsFull()
      reads this
    {
      counter >= storage.Length
    }

    /** Returns the slot about to be overwritten, then stores t there. */
    method Write(t: T) returns (prior: Option<T>)
      requires Valid()
      modifies this, storage
      ensures Valid() && initial == old(initial) && written == old(written) + [t]
      ensures counter == old(counter) + 1
      ensures storage[..] == old(storage[..])[old(counter) % storage.Length := Some(t)]
      ensures prior == old(Window(initial, written))[0]
      ensures old(IsFull()) ==> IsFull()
    {
      var o := counter % storage.Length;
      prior := storage[o];
      assert prior == Rotate(storage[..], o)[0];
      ghost var before := storage[..];
      storage[o] := Some(t);
      ModNext(counter, storage.Length);
      counter := counter + 1;
      RotateWrite(before, o, t);
      WindowStep(initial, written, t);
      written := written + [t];
    }

    /** The slots from the offset to the end, then from 0 to the offset,
        dropping the empty ones. */
    function Stream(): (r: seq<T>)
      requires storage.Length > 0
      reads this, storage
      ensures Valid() ==> r == Present(Window(initial, written))
    {
      Present(Rotate(storage[..], counter % storage.Length))
    }
  }

  /** PrimitiveRingBuffer: a double[] filled with NaN (None) at construction. */
  class PrimitiveRingBuffer {
    const storage: array<Option<real>>
    var counter: nat
    ghost var initial: seq<Option<real>>
    ghost var written: seq<real>

    ghost predicate Valid()
      reads this, storage
    {
      && storage.Length > 0
      && |initial| == storage.Length
      && AllEmpty(initial)
      && counter == |written|
      && Rotate(storage[..], counter % storage.Length) == Window(initial, written)
    }

    constructor(storage: array<Option<real>>)
      requires storage.Length > 0
      modifies storage
      ensures Valid() && this.storage == storage && counter == 0 && written == []
      ensures AllEmpty(storage[..])
    {
      this.storage := storage;
      counter := 0;
      written := [];
      new;
      var i := 0;
      while i < storage.Length
        invariant 0 <= i <= storage.Length
        invariant this.storage == storage && counter == 0 && written == []
        invariant forall j :: 0 <= j < i ==> storage[j].None?
      {
        storage[i] := None;
        i := i + 1;
      }
      initial := storage[..];
      assert storage[0..] == storage[..];
    }

    function Capacity(): (n: nat)
      ensures n == storage.Length
    {
      storage.Length
    }

    function Offset(): (o: nat)
      requires storage.Length > 0
      reads this
      ensures o < storage.Length
    {
      counter % storage.Length
    }

    predicate IsFull()
      reads this
    {
      counter >= storage.Length
    }

    /** Returns the old slot value (NaN until the buffer wraps) and overwrites it. */
    method Write(d: real) returns (prior: Option<real>)
      requires Valid()
      modifies this, storage
      ensures Valid() && initial == old(initial) && written == old(written) + [d]
      ensures counter == old(counter) + 1
      ensures storage[..] == old(storage[..])[old(counter) % storage.Length := Some(d)]
      ensures prior == old(Window(initial, written))[0]
      ensures old(IsFull()) ==> IsFull()
    {
      var o := counter % storage.Length;
      prior := storage[o];
      assert prior == Rotate(storage[..], o)[0];
      ghost var before := storage[..];
      storage[o] := Some(d);
      ModNext(counter, storage.Length);
      counter := counter + 1;
      RotateWrite(before, o, d);
      WindowStep(initial, written, d);
      written := written + [d];
    }

    function Stream(): (r: seq<real>)
      requires storage.Length > 0
      reads this, storage
      ensures Valid() ==> r == Present(Window(initial, written))
    {
      Present(Rotate(storage[..], counter % storage.Length))
    }
  }

  /**
   * AbstractRingBuffer: write, read(n) and stream over the abstract slot
   * accessors readOffset/writeOffset, which here read and write an array.
   */
  class AbstractRingBuffer<T> {
    const storage: array<Option<T>>
    var counter: nat
    ghost var initial: seq<Option<T>>
    ghost var written: seq<T>

    ghost predicate Valid()
      reads this, storage
    {
      && storage.Length > 0
      && |initial| == storage.Length
      && counter == |written|
      && Rotate(storage[..], counter % storage.Length) == Window(initial, written)
    }

    constructor(storage: array<Option<T>>)
      requires storage.Length > 0
      ensures Valid() && this.storage == storage && counter == 0
      ensures initial == storage[..] && written == []
    {
      this.storage := storage;
      counter := 0;
      initial := storage[..];
      written := [];
      new;
      assert storage[0..] == storage[..];
    }

    function Capacity(): (n: nat)
      ensures n == storage.Length
    {
      storage.Length
    }

    /** read(n): the slot at (counter + capacity + n) % capacity, that is the
        entry (capacity + n) % capacity of the window. */
    function Read(n: int): (r: Option<T>)
      requires storage.Length > 0 && counter + storage.Length + n >= 0
      reads this, storage
      ensures Valid() ==> r == Window(initial, written)[(storage.Length + n) % storage.Length]
    {
      var cap := storage.Length;
      var i := (counter + cap + n) % cap;
      assert Valid() ==> storage[i] == Window(initial, written)[(cap + n) % cap] by {
        if Valid() {
          RotateRead(storage[..], counter, n);
        }
      }
      storage[i]
    }

    /** read(): read(-1), the most recent write. */
    function ReadLast(): (r: Option<T>)
      requires storage.Length > 0
      reads this, storage
      ensures Valid() && written != [] ==> r == Some(written[|written| - 1])
    {
      var r := Read(-1);
      assert Valid() ==> r == Window(initial, written)[storage.Length - 1] by {
        if Valid() {
          ModUnique(storage.Length - 1, storage.Length, 0, storage.Length - 1);
        }
      }
      r
    }

    function Offset(): (o: nat)
      requires storage.Length > 0
      reads this
      ensures o < storage.Length
    {
      counter % storage.Length
    }

    predicate IsFull()
      reads this
    {
      counter >= storage.Length
    }

    /** write: tmp := read(0); writeOffset(counter++ % capacity, t); return tmp. */
    method Write(t: T) returns (prior: Option<T>)
      requires Valid()
      modifies this, storage
      ensures Valid() && initial == old(initial) && written == old(written) + [t]
      ensures counter == old(counter) + 1
      ensures storage[..] == old(storage[..])[old(counter) % storage.Length := Some(t)]
      ensures prior == old(Window(initial, written))[0]
      ensures old(IsFull()) ==> IsFull()
    {
      ModUnique(storage.Length, storage.Length, 1, 0);
      prior := Read(0);
      var o := counter % storage.Length;
      ghost var before := storage[..];
      storage[o] := Some(t);
      ModNext(counter, storage.Length);
      counter := counter + 1;
      RotateWrite(before, o, t);
      WindowStep(initial, written, t);
      written := written + [t];
    }

    /** range(0, capacity).mapToObj(read).filter(nonNull) */
    function Stream(): (r: seq<T>)
      requires storage.Length > 0
      reads this, storage
      ensures Valid() ==> r == Present(Window(initial, written))
    {
      var slots := seq(storage.Length, i requires 0 <= i < storage.Length reads this, storage => Read(i));
      assert Valid() ==> slots == Window(initial, written) by {
        if Valid() {
          forall i | 0 <= i < storage.Length
            ensures slots[i] == Window(initial, written)[i]
          {
            ModUnique(storage.Length + i, storage.Length, 1, i);
          }
        }
      }
      Present(slots)
    }
  }

  /** A buffer that started empty streams exactly what was written until it
      wraps, and afterwards the last `capacity` writes, oldest first. */
  lemma StreamIsLastWrites<T>(b: SimpleRingBuffer<T>)
    requires b.Valid() && AllEmpty(b.initial)
    ensures |b.written| <= b.Capacity() ==> b.Stream() == b.written
    ensures |b.written| >= b.Capacity() ==> b.Stream() == b.written[|b.written| - b.Capacity()..]
  {
    WindowFromEmpty(b.initial, b.written);
  }

  lemma PrimitiveStreamIsLastWrites(b: PrimitiveRingBuffer)
    requires b.Valid()
    ensures |b.written| <= b.Capacity() ==> b.Stream() == b.written
    ensures |b.written| >= b.Capacity() ==> b.Stream() == b.written[|b.written| - b.Capacity()..]
  {
    WindowFromEmpty(b.initial, b.written);
  }

  /** read(-k) is the k-th most recent write, for k up to the capacity. */
  lemma ReadRecent<T>(b: AbstractRingBuffer<T>, k: nat)
    requires b.Valid() && 1 <= k <= b.Capacity() && k <= |b.written|
    ensures b.Read(-(k as int)) == Some(b.written[|b.written| - k])
  {
    ModUnique(b.Capacity() - k, b.Capacity(), 0, b.Capacity() - k);
    WindowRecent(b.initial, b.written, k);
  }

  /** What write returns: empty until the buffer wraps, then the write made
      `capacity` writes earlier. */
  lemma WriteReturnsOldest<T>(b: SimpleRingBuffer<T>)
    requires b.Valid() && AllEmpty(b.initial)
    ensures |b.written| < b.Capacity() ==> Window(b.initial, b.written)[0].None?
    ensures |b.written| >= b.Capacity() ==>
      Window(b.initial, b.written)[0] == Some(b.written[|b.written| - b.Capacity()])
  {
    WindowOldest(b.initial, b.written);
  }
}
