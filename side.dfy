// Side: BUY carries multiplier -1 and SELL +1.

module Sides {
  datatype Side = Buy | Sell
  {
    function Multiplier(): int
    {
      if this == Buy then -1 else 1
    }

    /** signed(int): the amount times the multiplier. */
    function Signed(x: int): (r: int)
      ensures this == Buy ==> r == -x
      ensures this == Sell ==> r == x
    {
      Multiplier() * x
    }

    /** signed(BigDecimal): the same sign applied to an amount of money. */
    function SignedAmount(x: real): (r: real)
      ensures this == Buy ==> r == -x
      ensures this == Sell ==> r == x
    {
      Multiplier() as real * x
    }

    predicate IsBuy() { this == Buy }

    predicate IsSell() { this == Sell }

    function Flip(): (r: Side)
      ensures r != this
    {
      if IsBuy() then Sell else Buy
    }
  }

  lemma FlipInvolutive(s: Side)
    ensures s.Flip().Flip() == s
  {
  }

  /** Exactly one of isBuy and isSell holds. */
  lemma BuyXorSell(s: Side)
    ensures s.IsBuy() != s.IsSell()
  {
  }

  /** A flipped side signs every amount the opposite way. */
  lemma FlipNegates(s: Side, x: int)
    ensures s.Flip().Signed(x) == -s.Signed(x)
  {
  }
}
