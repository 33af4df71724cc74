// PositionService: splitting one instrument's trade list into consecutive
// positions, grouping a market's trades by code, and counting closed
// positions by outcome.

module PositionServices {
  import opened Sides
  import opened Positions
  import PositionCollectors

  /** How a trade moves runningSize: an opening-side trade adds its size, any
      other trade subtracts it. */
  function Step(opening: Side, t: Trade): int
  {
    if t.side == opening then t.size else -t.size
  }

  /** runningSize after the trades ts, for a position opened on side `opening`. */
  function Net(opening: Side, ts: seq<Trade>): int
  {
    if ts == [] then 0 else Net(opening, ts[..|ts| - 1]) + Step(opening, ts[|ts| - 1])
  }

  /** runningSize is the position's signed size seen from its opening side, so
      it is zero exactly when the position is closed. */
  lemma {:induction false} NetIsSignedSize(opening: Side, ts: seq<Trade>)
    ensures Net(opening, ts) == opening.Multiplier() * SignedSize(ts)
    ensures Net(opening, ts) == 0 <==> SignedSize(ts) == 0
  {
    if ts != [] {
      NetIsSignedSize(opening, ts[..|ts| - 1]);
      var t := ts[|ts| - 1];
      assert Step(opening, t) == opening.Multiplier() * t.side.Signed(t.size);
      assert opening.Multiplier() * SignedSize(ts)
          == opening.Multiplier() * SignedSize(ts[..|ts| - 1]) + opening.Multiplier() * t.side.Signed(t.size);
    }
  }

  /** A position holding c, on the instrument of c's first trade. */
  function PositionOf(c: seq<Trade>): (p: Position)
    requires c != []
    ensures p.trades == c && p.market == c[0].market && p.code == c[0].code
  {
    Position(c[0].market, c[0].code, c)
  }

  /**
   * The positions buildPositions returns when `cur` holds the trades of the
   * current position (empty for none) and `rest` is still to be read: each
   * trade joins the current position, and the position is complete when it
   * closes.
   */
  function Continue(cur: seq<Trade>, rest: seq<Trade>): seq<Position>
    decreases |rest|
  {
    if rest == [] then (if cur == [] then [] else [PositionOf(cur)])
    else
      var c := cur + [rest[0]];
      if PositionOf(c).IsClosed() then [PositionOf(c)] + Continue([], rest[1..])
      else Continue(c, rest[1..])
  }

  function Split(ts: seq<Trade>): seq<Position>
  {
    Continue([], ts)
  }

  /** The trades of the positions, one position after the other. */
  function Flatten(ps: seq<Position>): seq<Trade>
  {
    if ps == [] then [] else ps[0].trades + Flatten(ps[1..])
  }

  lemma FlattenAppend(ps: seq<Position>, qs: seq<Position>)
    ensures Flatten(ps + qs) == Flatten(ps) + Flatten(qs)
  {
    if ps == [] {
      assert ps + qs == qs;
    } else {
      assert (ps + qs)[1..] == ps[1..] + qs;
      FlattenAppend(ps[1..], qs);
    }
  }

  /** buildPositions: one pass over the trades keeping the current position
      and its running size; a position is emitted when the size returns to 0,
      and the one still open at the end is emitted last. */
  method BuildPositions(trades: seq<Trade>) returns (positions: seq<Position>)
    ensures positions == Split(trades)
  {
    positions := [];
    if |trades| == 0 {
      return;
    }
    var current: seq<Trade> := [];
    var market, code := "", "";
    var runningSize := 0;
    var i := 0;
    while i < |trades|
      invariant 0 <= i <= |trades|
      invariant current != [] ==> market == current[0].market && code == current[0].code
      invariant current != [] ==> runningSize == Net(current[0].side, current)
      invariant positions + Continue(current, trades[i..]) == Split(trades)
    {
      var trade := trades[i];
      assert trades[i..][1..] == trades[i + 1..];
      if current == [] {
        market, code := trade.market, trade.code;
        runningSize := 0;
      }
      var c := current + [trade];
      assert c[..|c| - 1] == current;
      var adding := trade.side == c[0].side;
      if adding {
        runningSize := runningSize + trade.size;
      } else {
        runningSize := runningSize - trade.size;
      }
      NetIsSignedSize(c[0].side, c);
      if runningSize == 0 {
        positions := positions + [Position(market, code, c)];
        current := [];
      } else {
        current := c;
      }
      i := i + 1;
    }
    if current != [] {
      positions := positions + [Position(market, code, current)];
    }
  }

  /** Concatenating the trades of the positions gives back the input in order. */
  lemma {:induction false} ContinueFlatten(cur: seq<Trade>, rest: seq<Trade>)
    ensures Flatten(Continue(cur, rest)) == cur + rest
    decreases |rest|
  {
    if rest == [] {
      if cur != [] {
        assert Flatten([PositionOf(cur)]) == cur + Flatten([]);
      }
    } else {
      var c := cur + [rest[0]];
      assert c + rest[1..] == cur + rest;
      ContinueFlatten(if PositionOf(c).IsClosed() then [] else c, rest[1..]);
      if PositionOf(c).IsClosed() {
        assert ([PositionOf(c)] + Continue([], rest[1..]))[1..] == Continue([], rest[1..]);
      }
    }
  }

  /** No proper non-empty prefix of ts is closed. */
  predicate PrefixesOpen(ts: seq<Trade>)
  {
    forall k :: 0 < k < |ts| ==> SignedSize(ts[..k]) != 0
  }

  /** The shape of each position: non-empty, on its first trade's instrument,
      open at every proper prefix, and closed unless it is the last one. */
  predicate WellSplit(ps: seq<Position>)
  {
    && (forall i :: 0 <= i < |ps| ==>
          ps[i].trades != [] && ps[i] == PositionOf(ps[i].trades) && PrefixesOpen(ps[i].trades))
    && (forall i :: 0 <= i < |ps| - 1 ==> ps[i].IsClosed())
  }

  lemma PrefixesOpenStep(cur: seq<Trade>, t: Trade)
    requires cur == [] || (SignedSize(cur) != 0 && PrefixesOpen(cur))
    ensures PrefixesOpen(cur + [t])
  {
    var c := cur + [t];
    forall k | 0 < k < |c|
      ensures SignedSize(c[..k]) != 0
    {
      if k < |cur| {
        assert c[..k] == cur[..k];
      } else {
        assert c[..k] == cur;
      }
    }
  }

  lemma {:induction false} ContinueShape(cur: seq<Trade>, rest: seq<Trade>)
    requires cur == [] || (SignedSize(cur) != 0 && PrefixesOpen(cur))
    ensures WellSplit(Continue(cur, rest))
    decreases |rest|
  {
    if rest != [] {
      var c := cur + [rest[0]];
      PrefixesOpenStep(cur, rest[0]);
      if PositionOf(c).IsClosed() {
        ContinueShape([], rest[1..]);
        var tail := Continue([], rest[1..]);
        var ps := [PositionOf(c)] + tail;
        forall i | 0 <= i < |ps|
          ensures ps[i].trades != [] && ps[i] == PositionOf(ps[i].trades) && PrefixesOpen(ps[i].trades)
        {
          if i > 0 {
            assert ps[i] == tail[i - 1];
          }
        }
        forall i | 0 <= i < |ps| - 1
          ensures ps[i].IsClosed()
        {
          if i > 0 {
            assert ps[i] == tail[i - 1];
          }
        }
      } else {
        ContinueShape(c, rest[1..]);
      }
    }
  }

  /** What buildPositions promises: nothing lost or reordered, each position
      ends exactly when its size returns to 0, and only the last may be open. */
  lemma SplitProperties(ts: seq<Trade>)
    ensures Split([]) == []
    ensures Flatten(Split(ts)) == ts
    ensures WellSplit(Split(ts))
  {
    ContinueFlatten([], ts);
    ContinueShape([], ts);
  }

  // ---- getPositionsByMarket ----

  /** The distinct codes of ts, in order of first appearance. */
  function Codes(ts: seq<Trade>): seq<string>
  {
    if ts == [] then []
    else
      var prev := Codes(ts[..|ts| - 1]);
      if ts[|ts| - 1].code in prev then prev else prev + [ts[|ts| - 1].code]
  }

  predicate Distinct(cs: seq<string>)
  {
    forall i, j :: 0 <= i < j < |cs| ==> cs[i] != cs[j]
  }

  /** Codes lists each code of ts once, and no other. */
  lemma {:induction false} CodesProperties(ts: seq<Trade>)
    ensures forall c :: c in Codes(ts) <==> exists t :: t in ts && t.code == c
    ensures Distinct(Codes(ts))
  {
    if ts != [] {
      var init := ts[..|ts| - 1];
      CodesProperties(init);
      assert ts == init + [ts[|ts| - 1]];
    }
  }

  /** The trades with code c, in order. */
  function WithCode(ts: seq<Trade>, c: string): seq<Trade>
  {
    if ts == [] then []
    else WithCode(ts[..|ts| - 1], c) + (if ts[|ts| - 1].code == c then [ts[|ts| - 1]] else [])
  }

  lemma {:induction false} WithCodeMembers(ts: seq<Trade>, c: string)
    ensures forall t :: t in WithCode(ts, c) <==> t in ts && t.code == c
  {
    if ts != [] {
      var init := ts[..|ts| - 1];
      WithCodeMembers(init, c);
      assert ts == init + [ts[|ts| - 1]];
    }
  }

  /** The positions of each code in turn. */
  function ByCode(ts: seq<Trade>, codes: seq<string>): seq<Position>
  {
    if codes == [] then [] else ByCode(ts, codes[..|codes| - 1]) + Split(WithCode(ts, codes[|codes| - 1]))
  }

  /** The trades of each code in turn. */
  function Grouped(ts: seq<Trade>, codes: seq<string>): seq<Trade>
  {
    if codes == [] then [] else Grouped(ts, codes[..|codes| - 1]) + WithCode(ts, codes[|codes| - 1])
  }

  /** getPositionsByMarket: for each distinct code in order of first
      appearance, the positions of that code's trades are appended. */
  method PositionsByMarket(allTrades: seq<Trade>) returns (result: seq<Position>)
    ensures result == ByCode(allTrades, Codes(allTrades))
  {
    var codes := Codes(allTrades);
    result := [];
    var i := 0;
    while i < |codes|
      invariant 0 <= i <= |codes|
      invariant result == ByCode(allTrades, codes[..i])
    {
      var tradesForCode := WithCode(allTrades, codes[i]);
      var ps := BuildPositions(tradesForCode);
      assert codes[..i + 1][..i] == codes[..i];
      result := result + ps;
      i := i + 1;
    }
    assert codes[..|codes|] == codes;
  }

  lemma {:induction false} ByCodeFlatten(ts: seq<Trade>, codes: seq<string>)
    ensures Flatten(ByCode(ts, codes)) == Grouped(ts, codes)
  {
    if codes != [] {
      var init := codes[..|codes| - 1];
      ByCodeFlatten(ts, init);
      FlattenAppend(ByCode(ts, init), Split(WithCode(ts, codes[|codes| - 1])));
      SplitProperties(WithCode(ts, codes[|codes| - 1]));
    }
  }

  /** Each position of ByCode holds trades of a single code. */
  lemma {:induction false} ByCodeSingleCode(ts: seq<Trade>, codes: seq<string>)
    ensures forall p, t :: p in ByCode(ts, codes) && t in p.trades ==> t.code == p.code
  {
    if codes != [] {
      var init := codes[..|codes| - 1];
      var c := codes[|codes| - 1];
      ByCodeSingleCode(ts, init);
      var ps := Split(WithCode(ts, c));
      SplitProperties(WithCode(ts, c));
      forall p, t | p in ps && t in p.trades
        ensures t.code == p.code
      {
        var i :| 0 <= i < |ps| && ps[i] == p;
        FlattenMember(ps, i, t);
        WithCodeMembers(ts, c);
        assert t in WithCode(ts, c);
        assert p.trades[0] in Flatten(ps) by { FlattenMember(ps, i, p.trades[0]); }
      }
    }
  }

  lemma {:induction false} FlattenMember(ps: seq<Position>, i: nat, t: Trade)
    requires i < |ps| && t in ps[i].trades
    ensures t in Flatten(ps)
  {
    if i > 0 {
      FlattenMember(ps[1..], i - 1, t);
    }
  }

  lemma {:induction false} WithCodeAppend(ts: seq<Trade>, t: Trade, c: string)
    ensures WithCode(ts + [t], c) == WithCode(ts, c) + (if t.code == c then [t] else [])
  {
    assert (ts + [t])[..|ts|] == ts;
  }

  lemma {:induction false} WithCodeNone(ts: seq<Trade>, c: string)
    requires forall x :: x in ts ==> x.code != c
    ensures WithCode(ts, c) == []
  {
    if ts != [] {
      WithCodeNone(ts[..|ts| - 1], c);
    }
  }

  /** A trade appended to the input joins the group of its own code only. */
  lemma {:induction false} GroupedAppend(ts: seq<Trade>, t: Trade, codes: seq<string>)
    requires Distinct(codes)
    ensures multiset(Grouped(ts + [t], codes))
      == multiset(Grouped(ts, codes)) + (if t.code in codes then multiset{t} else multiset{})
  {
    if codes != [] {
      var init := codes[..|codes| - 1];
      var c := codes[|codes| - 1];
      GroupedAppend(ts, t, init);
      WithCodeAppend(ts, t, c);
      assert c !in init;
      var before := multiset(Grouped(ts, init));
      var group := multiset(WithCode(ts, c));
      assert multiset(Grouped(ts, codes)) == before + group;
      assert multiset(Grouped(ts + [t], codes))
          == multiset(Grouped(ts + [t], init)) + multiset(WithCode(ts + [t], c));
      if t.code == c {
        assert t.code !in init;
        assert multiset(WithCode(ts + [t], c)) == group + multiset{t};
      } else {
        assert multiset(WithCode(ts + [t], c)) == group;
        assert t.code in codes <==> t.code in init;
      }
    }
  }

  /** Grouping by the distinct codes keeps every trade exactly once. */
  lemma {:induction false} GroupedIsPermutation(ts: seq<Trade>)
    ensures multiset(Grouped(ts, Codes(ts))) == multiset(ts)
  {
    if ts != [] {
      var init := ts[..|ts| - 1];
      var t := ts[|ts| - 1];
      assert ts == init + [t];
      GroupedIsPermutation(init);
      CodesProperties(init);
      var cs := Codes(init);
      if t.code in cs {
        GroupedAppend(init, t, cs);
      } else {
        GroupedAppend(init, t, cs);
        assert Codes(ts) == cs + [t.code];
        assert (cs + [t.code])[..|cs|] == cs;
        forall x | x in init
          ensures x.code != t.code
        {
          assert x.code in cs;
        }
        WithCodeNone(init, t.code);
        WithCodeAppend(init, t, t.code);
      }
    }
  }

  /** getPositionsByMarket keeps every trade exactly once, grouped by code in
      order of first appearance, each position on a single code. */
  lemma PositionsByMarketProperties(ts: seq<Trade>)
    ensures multiset(Flatten(ByCode(ts, Codes(ts)))) == multiset(ts)
    ensures forall p, t :: p in ByCode(ts, Codes(ts)) && t in p.trades ==> t.code == p.code
  {
    ByCodeFlatten(ts, Codes(ts));
    GroupedIsPermutation(ts);
    ByCodeSingleCode(ts, Codes(ts));
  }

  // ---- computePerformanceStats: the counts ----

  datatype Counts = Counts(total: nat, wins: nat, losses: nat)

  /** The positions that are not open. */
  function ClosedOnes(ps: seq<Position>): (r: seq<Position>)
    ensures forall p :: p in r <==> p in ps && p.IsClosed()
  {
    if ps == [] then []
    else ClosedOnes(ps[..|ps| - 1]) + (if ps[|ps| - 1].IsClosed() then [ps[|ps| - 1]] else [])
  }

  /** Closed positions whose realised PnL is positive (win) or not (loss). */
  function Outcome(ps: seq<Position>, win: bool): (r: seq<Position>)
    requires forall p :: p in ps ==> p.IsClosed()
    ensures forall p :: p in r ==> p in ps
  {
    if ps == [] then []
    else
      var last := ps[|ps| - 1];
      Outcome(ps[..|ps| - 1], win) + (if (last.RealisedPnl() > 0.0) == win then [last] else [])
  }

  function PerformanceCounts(ps: seq<Position>): Counts
  {
    var closed := ClosedOnes(ps);
    if |closed| == 0 then Counts(0, 0, 0)
    else Counts(|closed|, |Outcome(closed, true)|, |Outcome(closed, false)|)
  }

  lemma {:induction false} OutcomesPartition(ps: seq<Position>)
    requires forall p :: p in ps ==> p.IsClosed()
    ensures |Outcome(ps, true)| + |Outcome(ps, false)| == |ps|
  {
    if ps != [] {
      OutcomesPartition(ps[..|ps| - 1]);
    }
  }

  /** Every closed position is a win or a loss and none is both; with no closed
      position every count is zero. */
  lemma WinsPlusLosses(ps: seq<Position>)
    ensures var r := PerformanceCounts(ps);
      && r.wins + r.losses == r.total
      && r.total == |ClosedOnes(ps)|
      && (r.total == 0 ==> r.wins == 0 && r.losses == 0)
  {
    OutcomesPartition(ClosedOnes(ps));
  }

  // ---- getPositions(userId, predicate) ----

  /** The positions satisfying pred, in order. */
  function Filtered(ps: seq<Position>, pred: PositionPredicate): (r: seq<Position>)
    requires forall p :: p in ps ==> p.trades != []
    ensures forall p :: p in r <==> p in ps && pred.Test(p)
  {
    if ps == [] then []
    else
      var last := ps[|ps| - 1];
      Filtered(ps[..|ps| - 1], pred) + (if pred.Test(last) then [last] else [])
  }

  /** getPositions: the collected positions that satisfy the predicate. */
  method GetPositions(trades: seq<Trade>, pred: PositionPredicate) returns (r: seq<Position>)
    ensures forall p :: p in PositionCollectors.Values(PositionCollectors.Collected(trades)) ==> p.trades != []
    ensures r == Filtered(PositionCollectors.Values(PositionCollectors.Collected(trades)), pred)
  {
    var all := PositionCollectors.Collect(trades);
    PositionCollectors.CollectedCoherent(trades);
    assert forall p :: p in all ==> p.trades != [] by {
      forall p | p in all
        ensures p.trades != []
      {
        var i :| 0 <= i < |all| && all[i] == p;
        assert PositionCollectors.EntryOk(PositionCollectors.Collected(trades)[i]);
      }
    }
    r := Filtered(all, pred);
  }
}
