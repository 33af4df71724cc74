// Trades and positions: a position is the list of trades on one instrument,
// and its size, side, dates, realised PnL and average price are derived from
// that list.

module Positions {
  import opened Wrappers
  import opened Sides

  /** A date as its epoch day. */
  type Date = int

  /** The fields of a trade that the position logic reads; money is exact. */
  datatype Trade = Trade(
    date: Date, code: string, size: int, price: real, cost: real, side: Side, market: string)

  function Abs(x: int): nat
  {
    if x < 0 then -x else x
  }

  /** sum of side.signed(size), added up from the first trade. */
  function SignedSize(ts: seq<Trade>): int
  {
    if ts == [] then 0 else SignedSize(ts[..|ts| - 1]) + ts[|ts| - 1].side.Signed(ts[|ts| - 1].size)
  }

  /** sum of side.signed(cost). */
  function SignedCost(ts: seq<Trade>): real
  {
    if ts == [] then 0.0 else SignedCost(ts[..|ts| - 1]) + ts[|ts| - 1].side.SignedAmount(ts[|ts| - 1].cost)
  }

  lemma SignedSizeAppend(ts: seq<Trade>, t: Trade)
    ensures SignedSize(ts + [t]) == SignedSize(ts) + t.side.Signed(t.size)
  {
    assert (ts + [t])[..|ts|] == ts;
  }

  /** Every trade on the same side. */
  predicate OneSided(ts: seq<Trade>)
  {
    forall i, j :: 0 <= i < |ts| && 0 <= j < |ts| ==> ts[i].side == ts[j].side
  }

  /** The trades on side s, in order. */
  function OnSide(ts: seq<Trade>, s: Side): (r: seq<Trade>)
    ensures forall t :: t in r <==> t in ts && t.side == s
  {
    if ts == [] then []
    else OnSide(ts[..|ts| - 1], s) + (if ts[|ts| - 1].side == s then [ts[|ts| - 1]] else [])
  }

  function TotalSize(ts: seq<Trade>): int
  {
    if ts == [] then 0 else TotalSize(ts[..|ts| - 1]) + ts[|ts| - 1].size
  }

  function TotalCost(ts: seq<Trade>): real
  {
    if ts == [] then 0.0 else TotalCost(ts[..|ts| - 1]) + ts[|ts| - 1].cost
  }

  datatype Position = Position(market: string, code: string, trades: seq<Trade>)
  {
    /** addTrade: the trade goes at the end, the earlier trades stay as they were. */
    function AddTrade(t: Trade): (p: Position)
      ensures p.market == market && p.code == code
      ensures |p.trades| == |trades| + 1 && p.trades[..|trades|] == trades
      ensures p.trades[|trades|] == t
    {
      Position(market, code, trades + [t])
    }

    /** getSize: |sum of side.signed(size)|. */
    function Size(): nat
    {
      Abs(SignedSize(trades))
    }

    predicate IsClosed()
    {
      Size() == 0
    }

    predicate IsOpen()
    {
      !IsClosed()
    }

    /** getSide: the side of the first trade. */
    function OpeningSide(): Side
      requires trades != []
    {
      trades[0].side
    }

    predicate IsShort()
      requires trades != []
    {
      OpeningSide().IsSell()
    }

    function OpenDate(): Date
      requires trades != []
    {
      trades[0].date
    }

    /** getCloseDate: the last trade's date, present only once closed. */
    function CloseDate(): (d: Option<Date>)
      requires trades != []
      ensures d.Some? <==> IsClosed()
      ensures d.Some? ==> d.value == trades[|trades| - 1].date
    {
      if IsClosed() then Some(trades[|trades| - 1].date) else None
    }

    /**
     * getRealisedPnl: a closed position's PnL is the signed sum of its costs;
     * an open one whose trades are all on one side has none yet.
     */
    function RealisedPnl(): (pnl: real)
      requires IsClosed() || OneSided(trades)
      ensures IsClosed() ==> pnl == SignedCost(trades)
      ensures !IsClosed() ==> pnl == 0.0
    {
      if IsClosed() then SignedCost(trades) else 0.0
    }

    /**
     * getAveragePrice: the cost per unit of the trades on the opening side.
     * None is the division by a zero total size; without trades the filter
     * never asks for the side, so the totals are zero and the division fails.
     */
    function AveragePrice(): (avg: Option<real>)
      ensures trades == [] ==> avg.None?
      ensures trades != [] ==> (avg.None? <==> TotalSize(OnSide(trades, OpeningSide())) == 0)
    {
      if trades == [] then None
      else
        var opening := OnSide(trades, OpeningSide());
        if TotalSize(opening) == 0 then None
        else Some(TotalCost(opening) / TotalSize(opening) as real)
    }
  }

  /** Position.of: a position holding just t, on t's instrument. */
  function Of(t: Trade): (p: Position)
    ensures p.market == t.market && p.code == t.code && p.trades == [t]
    ensures p.OpeningSide() == t.side && p.OpenDate() == t.date
    ensures p.IsOpen() <==> t.size != 0
  {
    var p := Position(t.market, t.code, []).AddTrade(t);
    assert p.trades[..0] == [];
    assert SignedSize(p.trades) == t.side.Signed(t.size);
    assert t.side.Signed(t.size) == 0 <==> t.size == 0;
    p
  }

  /** A trade on the other side never changes the average price. */
  lemma AveragePriceIgnoresOpposite(p: Position, t: Trade)
    requires p.trades != [] && t.side != p.OpeningSide()
    ensures p.AddTrade(t).AveragePrice() == p.AveragePrice()
  {
    var ts := p.trades + [t];
    assert ts[..|ts| - 1] == p.trades;
    assert OnSide(ts, p.OpeningSide()) == OnSide(p.trades, p.OpeningSide());
  }

  /** A trade on the opening side adds its size and cost to the average's totals. */
  lemma AveragePriceAddsOpening(p: Position, t: Trade)
    requires p.trades != [] && t.side == p.OpeningSide()
    ensures var opening := OnSide(p.trades, p.OpeningSide());
      var q := p.AddTrade(t);
      && TotalSize(OnSide(q.trades, q.OpeningSide())) == TotalSize(opening) + t.size
      && TotalCost(OnSide(q.trades, q.OpeningSide())) == TotalCost(opening) + t.cost
  {
    var ts := p.trades + [t];
    assert ts[..|ts| - 1] == p.trades;
    var o := OnSide(p.trades, p.OpeningSide());
    assert OnSide(ts, p.OpeningSide()) == o + [t];
    assert (o + [t])[..|o|] == o;
  }

  /** Buying and then selling the same size closes the position with the
      sale's cost less the purchase's as its PnL. */
  lemma RoundTripPnl(buy: Trade, sell: Trade)
    requires buy.side == Buy && sell.side == Sell && buy.size == sell.size
    ensures var p := Of(buy).AddTrade(sell);
      p.IsClosed() && p.RealisedPnl() == sell.cost - buy.cost
      && p.CloseDate() == Some(sell.date)
  {
    var p := Of(buy).AddTrade(sell);
    assert p.trades[..1] == [buy];
    assert [buy][..0] == [];
    assert SignedSize([buy]) == -buy.size;
    assert SignedSize(p.trades) == 0;
    assert SignedCost([buy]) == -buy.cost;
  }

  function Flipped(ts: seq<Trade>): (r: seq<Trade>)
    ensures |r| == |ts|
    ensures forall i :: 0 <= i < |ts| ==> r[i] == ts[i].(side := ts[i].side.Flip())
  {
    if ts == [] then [] else Flipped(ts[..|ts| - 1]) + [ts[|ts| - 1].(side := ts[|ts| - 1].side.Flip())]
  }

  /** The size does not depend on which side opened: flipping every trade
      negates the signed sum. */
  lemma {:induction false} FlippedSignedSize(ts: seq<Trade>)
    ensures SignedSize(Flipped(ts)) == -SignedSize(ts)
  {
    if ts != [] {
      var f := Flipped(ts);
      assert f[..|f| - 1] == Flipped(ts[..|ts| - 1]);
      FlippedSignedSize(ts[..|ts| - 1]);
      FlipNegates(ts[|ts| - 1].side, ts[|ts| - 1].size);
    }
  }

  /** OPEN, CLOSED, SHORT and LONG. */
  datatype PositionPredicate = Open | Closed | Short | Long
  {
    /** test delegates to isOpen, isClosed, isShort or not isShort. */
    predicate Test(p: Position)
      requires Short? || Long? ==> p.trades != []
    {
      match this
      case Open => p.IsOpen()
      case Closed => p.IsClosed()
      case Short => p.IsShort()
      case Long => !p.IsShort()
    }
  }

  /** OPEN and CLOSED disagree on every position, as SHORT and LONG do. */
  lemma PredicatesComplementary(p: Position)
    ensures Open.Test(p) != Closed.Test(p)
    ensures p.trades != [] ==> Short.Test(p) != Long.Test(p)
    ensures p.trades != [] ==> (Short.Test(p) <==> p.OpeningSide() == Sell)
  {
  }
}
