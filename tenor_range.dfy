// TenorRange: an amount of a calendar unit measured from an anchor date,
// forward or backward, and its parse from strings such as "6M" or "30D".

module TenorRanges {
  import opened Wrappers

  /** A date as its epoch day. */
  type Date = int

  const INT_MAX: int := 0x7FFF_FFFF

  /** The Tenor constants D, M and Y (ChronoUnit DAYS, MONTHS and YEARS). */
  datatype Tenor = D | M | Y

  /**
   * LocalDate.plus and LocalDate.minus by a number of units. Calendar
   * arithmetic belongs to java.time, so it is a parameter of the model.
   */
  datatype Calendar = Calendar(plus: (Tenor, int, Date) -> Date, minus: (Tenor, int, Date) -> Date)

  datatype Direction = Forward | Backward

  datatype TenorRange = TenorRange(amount: int, unit: Tenor, anchor: Date, direction: Direction)
  {
    /** Backward ranges start amount units before the anchor; forward ones at it. */
    function Start(cal: Calendar): Date
    {
      match direction
      case Backward => cal.minus(unit, amount, anchor)
      case Forward => anchor
    }

    function End(cal: Calendar): Date
    {
      match direction
      case Backward => anchor
      case Forward => cal.plus(unit, amount, anchor)
    }

    function ToLocalDates(cal: Calendar): (r: seq<Date>)
      ensures r == [Start(cal), End(cal)]
    {
      [Start(cal), End(cal)]
    }

    /** The same tenor, measured forward from d. */
    function StartFrom(d: Date): (r: TenorRange)
      ensures r.amount == amount && r.unit == unit
      ensures forall cal: Calendar :: r.Start(cal) == d && r.End(cal) == cal.plus(unit, amount, d)
    {
      TenorRange(amount, unit, d, Forward)
    }

    /** The same tenor, measured backward to d. */
    function EndAt(d: Date): (r: TenorRange)
      ensures r.amount == amount && r.unit == unit
      ensures forall cal: Calendar :: r.End(cal) == d && r.Start(cal) == cal.minus(unit, amount, d)
    {
      TenorRange(amount, unit, d, Backward)
    }
  }

  /** The three-argument constructor: a backward range. */
  function Anchored(amount: int, unit: Tenor, anchor: Date): (r: TenorRange)
    ensures r.direction == Backward && r.anchor == anchor
  {
    TenorRange(amount, unit, anchor, Backward)
  }

  /** Why parse refuses a string; each is an IllegalArgumentException. */
  datatype ParseError =
    | InvalidFormat(input: string)      // the pattern ^(\d+)([A-Z])$ does not match
    | NumberFormat(digits: string)      // Integer.parseInt overflows
    | NoEnumConstant(name: string)      // Tenor.valueOf of a letter that is not D, M or Y

  predicate IsDigit(c: char) { '0' <= c <= '9' }

  predicate IsUpper(c: char) { 'A' <= c <= 'Z' }

  predicate AllDigits(s: string)
  {
    forall i :: 0 <= i < |s| ==> IsDigit(s[i])
  }

  /** One or more ASCII digits followed by one upper-case letter. */
  predicate Matches(s: string)
  {
    |s| >= 2 && AllDigits(s[..|s| - 1]) && IsUpper(s[|s| - 1])
  }

  /** The decimal value of a string of digits. */
  function DigitsValue(s: string): (n: nat)
    requires AllDigits(s)
  {
    if s == [] then 0 else 10 * DigitsValue(s[..|s| - 1]) + (s[|s| - 1] - '0') as nat
  }

  function TenorOf(c: char): Option<Tenor>
  {
    if c == 'D' then Some(D) else if c == 'M' then Some(M) else if c == 'Y' then Some(Y) else None
  }

  /** parse: a backward range anchored at today. */
  function Parse(s: string, today: Date): (r: Result<TenorRange, ParseError>)
    ensures r.Err? && r.error.InvalidFormat? <==> !Matches(s)
    ensures r.Err? && r.error.InvalidFormat? ==> r.error.input == s
    ensures r.Ok? ==>
              && Matches(s) && r.value.amount == DigitsValue(s[..|s| - 1])
              && Some(r.value.unit) == TenorOf(s[|s| - 1])
              && r.value.anchor == today && r.value.direction == Backward
  {
    if !Matches(s) then Err(InvalidFormat(s))
    else
      var digits := s[..|s| - 1];
      var amount := DigitsValue(digits);
      if amount > INT_MAX then Err(NumberFormat(digits))
      else
        match TenorOf(s[|s| - 1])
        case None => Err(NoEnumConstant([s[|s| - 1]]))
        case Some(u) => Ok(Anchored(amount, u, today))
  }

  /** Integer.toString of a non-negative number. */
  function ShowDigits(n: nat): (s: string)
    ensures |s| >= 1 && AllDigits(s)
  {
    var last := [('0' as int + n % 10) as char];
    if n < 10 then last else ShowDigits(n / 10) + last
  }

  lemma {:induction false} DigitsValueShow(n: nat)
    ensures DigitsValue(ShowDigits(n)) == n
  {
    var s := ShowDigits(n);
    if n >= 10 {
      DigitsValueShow(n / 10);
      assert s[..|s| - 1] == ShowDigits(n / 10);
    } else {
      assert s[..|s| - 1] == [];
    }
  }

  function Letter(u: Tenor): char
  {
    match u case D => 'D' case M => 'M' case Y => 'Y'
  }

  /** Writing an amount and a unit as text and parsing it gives them back. */
  lemma ParseShown(n: nat, u: Tenor, today: Date)
    requires n <= INT_MAX
    ensures Parse(ShowDigits(n) + [Letter(u)], today) == Ok(TenorRange(n, u, today, Backward))
  {
    var s := ShowDigits(n) + [Letter(u)];
    assert s[..|s| - 1] == ShowDigits(n);
    DigitsValueShow(n);
  }
}
