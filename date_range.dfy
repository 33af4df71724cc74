// DateRange: an explicit start and end, or a tenor range; resolve picks one
// from the optional request parameters.

module DateRanges {
  import opened Wrappers
  import opened TenorRanges

  datatype DateRange =
    | Simple(s: Date, e: Date)
    | Tenored(range: TenorRange)
  {
    function Start(cal: Calendar): Date
    {
      match this
      case Simple(s, _) => s
      case Tenored(t) => t.Start(cal)
    }

    function End(cal: Calendar): Date
    {
      match this
      case Simple(_, e) => e
      case Tenored(t) => t.End(cal)
    }
  }

  /** DateRange.of */
  function Of(s: Date, e: Date): (r: DateRange)
    ensures forall cal: Calendar :: r.Start(cal) == s && r.End(cal) == e
  {
    Simple(s, e)
  }

  /**
   * resolve: both dates win over the tenor, which is then never parsed; otherwise
   * the parsed tenor is anchored forward at startFrom, or else backward at endAt.
   * The dates arrive already parsed; an unparsable tenor is the error.
   */
  function Resolve(tenor: Option<string>, startFrom: Option<Date>, endAt: Option<Date>, today: Date)
    : (r: Result<Option<DateRange>, ParseError>)
  {
    if startFrom.Some? && endAt.Some? then Ok(Some(Of(startFrom.value, endAt.value)))
    else
      match tenor
      case None => Ok(None)
      case Some(str) =>
        match Parse(str, today)
        case Err(e) => Err(e)
        case Ok(t) =>
          var t1 := if startFrom.Some? then t.StartFrom(startFrom.value) else t;
          var t2 := if endAt.Some? then t1.EndAt(endAt.value) else t1;
          Ok(Some(Tenored(t2)))
  }

  /** With both dates the result is exactly that range, whatever the tenor. */
  lemma ResolveBothDates(tenor: Option<string>, s: Date, e: Date, today: Date, cal: Calendar)
    ensures Resolve(tenor, Some(s), Some(e), today).Ok?
    ensures var r := Resolve(tenor, Some(s), Some(e), today).value;
      r.Some? && r.value.Start(cal) == s && r.value.End(cal) == e
  {
  }

  /** Without a tenor and without both dates there is no range. */
  lemma ResolveNoTenor(startFrom: Option<Date>, endAt: Option<Date>, today: Date)
    requires startFrom.None? || endAt.None?
    ensures Resolve(None, startFrom, endAt, today) == Ok(None)
  {
  }

  /** With one date and a parsable tenor, the range starts at startFrom (forward)
      or ends at endAt (backward); with neither date it is the parsed tenor. */
  lemma ResolveTenor(str: string, startFrom: Option<Date>, endAt: Option<Date>, today: Date, cal: Calendar)
    requires startFrom.None? || endAt.None?
    requires Parse(str, today).Ok?
    ensures var t := Parse(str, today).value;
      var r := Resolve(Some(str), startFrom, endAt, today);
      && r.Ok? && r.value.Some? && r.value.value.Tenored?
      && r.value.value.range.amount == t.amount && r.value.value.range.unit == t.unit
      && (startFrom.Some? ==>
            r.value.value.Start(cal) == startFrom.value && r.value.value.range.direction == Forward)
      && (endAt.Some? ==>
            r.value.value.End(cal) == endAt.value && r.value.value.range.direction == Backward)
      && (startFrom.None? && endAt.None? ==> r.value.value.range == t)
  {
  }

  /** An unparsable tenor is reported unless both dates are given. */
  lemma ResolveBadTenor(str: string, startFrom: Option<Date>, endAt: Option<Date>, today: Date)
    requires startFrom.None? || endAt.None?
    requires Parse(str, today).Err?
    ensures Resolve(Some(str), startFrom, endAt, today) == Err(Parse(str, today).error)
  {
  }
}
