// Optionals.or and Optionals.and over a list of optionals, by cases on the
// list's size exactly as the source switches on it.

module Optionals {
  import opened Wrappers

  /** get(0) on an empty list: IndexOutOfBoundsException. */
  datatype Failure = IndexOutOfBounds

  /** l.map(x -> r.map(y -> combine(x, y)).orElse(x)).or(() -> r) */
  function OrPair<T>(combine: (T, T) -> T, l: Option<T>, r: Option<T>): (o: Option<T>)
  {
    match l
    case Some(x) => (match r case Some(y) => Some(combine(x, y)) case None => Some(x))
    case None => r
  }

  function Or<T>(combine: (T, T) -> T, xs: seq<Option<T>>): (r: Result<Option<T>, Failure>)
    ensures r.Err? <==> xs == []
  {
    if |xs| == 0 then Err(IndexOutOfBounds)
    else if |xs| == 1 then Ok(xs[0])
    else if |xs| == 2 then Ok(OrPair(combine, xs[0], xs[1]))
    else Ok(OrPair(combine, xs[0], Or(combine, xs[1..]).value))
  }

  /** Right fold of combine over a non-empty sequence. */
  function FoldRight<T>(combine: (T, T) -> T, vs: seq<T>): T
    requires vs != []
  {
    if |vs| == 1 then vs[0] else combine(vs[0], FoldRight(combine, vs[1..]))
  }

  /** or of a non-empty list is empty iff every element is empty, and otherwise
      combines the present values as a right fold. */
  lemma {:induction false} OrIsFoldOfPresent<T>(combine: (T, T) -> T, xs: seq<Option<T>>)
    requires xs != []
    ensures Or(combine, xs).Ok?
    ensures Or(combine, xs).value.None? <==> Present(xs) == []
    ensures Present(xs) != [] ==> Or(combine, xs).value == Some(FoldRight(combine, Present(xs)))
  {
    if |xs| == 2 {
      assert xs[1..][1..] == [];
    } else if |xs| > 2 {
      OrIsFoldOfPresent(combine, xs[1..]);
      var rest := Present(xs[1..]);
      if xs[0].Some? {
        assert Present(xs) == [xs[0].value] + rest;
        assert Present(xs)[1..] == rest;
      } else {
        assert Present(xs) == rest;
      }
    }
  }

  /** None is empty, else every element is present. */
  predicate AllPresent<T>(xs: seq<Option<T>>)
  {
    forall i :: 0 <= i < |xs| ==> xs[i].Some?
  }

  /** l.flatMap(x -> r.flatMap(y -> Optional.of(combine(x, y)))) for two,
      head.flatMap(x -> and(tail)) for three or more. */
  function And<T>(combine: (T, T) -> T, xs: seq<Option<T>>): (r: Result<Option<T>, Failure>)
    ensures r.Err? <==> xs == []
  {
    if |xs| == 0 then Err(IndexOutOfBounds)
    else if |xs| == 1 then Ok(xs[0])
    else if |xs| == 2 then
      Ok(if xs[0].Some? && xs[1].Some? then Some(combine(xs[0].value, xs[1].value)) else None)
    else if xs[0].None? then Ok(None)
    else And(combine, xs[1..])
  }

  /** and of two or more is empty iff some element is empty; when all are present
      every element but the last two is discarded. */
  lemma {:induction false} AndOfPresent<T>(combine: (T, T) -> T, xs: seq<Option<T>>)
    requires |xs| >= 2
    ensures And(combine, xs).Ok?
    ensures And(combine, xs).value.None? <==> !AllPresent(xs)
    ensures AllPresent(xs) ==>
      And(combine, xs).value == Some(combine(xs[|xs| - 2].value, xs[|xs| - 1].value))
  {
    if |xs| > 2 {
      AndOfPresent(combine, xs[1..]);
      if xs[0].Some? {
        assert AllPresent(xs) <==> AllPresent(xs[1..]) by {
          if AllPresent(xs[1..]) {
            forall i | 0 <= i < |xs|
              ensures xs[i].Some?
            {
              if i > 0 {
                assert xs[i] == xs[1..][i - 1];
              }
            }
          }
        }
      }
    }
  }

  /** A single-element list is returned as it is by both. */
  lemma Singleton<T>(combine: (T, T) -> T, x: Option<T>)
    ensures Or(combine, [x]) == Ok(x) && And(combine, [x]) == Ok(x)
  {
  }
}
