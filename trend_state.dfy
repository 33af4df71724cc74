// TrendState: the six strict orderings of a fast (f), slow (s) and long (l)
// moving average, and the first-match classification over them.

module TrendStates {
  import opened Wrappers

  datatype TrendState = Bull | LateBull | EarlyBear | Bear | LateBear | EarlyBull

  /** The enum constants in declaration order, the order classify searches. */
  const VALUES: seq<TrendState> := [Bull, LateBull, EarlyBear, Bear, LateBear, EarlyBull]

  /** Each constant's predicate over (f, s, l). */
  predicate Holds(t: TrendState, f: real, s: real, l: real)
  {
    match t
    case Bull => l < s && s < f
    case LateBull => l < f && f < s
    case EarlyBear => f < l && l < s
    case Bear => f < s && s < l
    case LateBear => s < f && f < l
    case EarlyBull => s < l && l < f
  }

  /** The predicate in curried form, as the constant stores it. */
  function Curried(t: TrendState): real -> real -> real -> bool
  {
    f => s => l => Holds(t, f, s, l)
  }

  /** test(f, s, l) applies the curried predicate to f, then s, then l. */
  lemma TestIsCurried(t: TrendState, f: real, s: real, l: real)
    ensures Curried(t)(f)(s)(l) <==> Holds(t, f, s, l)
  {
  }

  /** The first state of ts whose predicate holds. */
  function FirstMatch(ts: seq<TrendState>, f: real, s: real, l: real): (r: Option<TrendState>)
    ensures r.Some? ==> r.value in ts && Holds(r.value, f, s, l)
    ensures r.None? <==> forall t :: t in ts ==> !Holds(t, f, s, l)
  {
    if ts == [] then None
    else if Holds(ts[0], f, s, l) then Some(ts[0])
    else FirstMatch(ts[1..], f, s, l)
  }

  /** classify: None stands for the IllegalStateException when nothing holds. */
  function Classify(f: real, s: real, l: real): (r: Option<TrendState>)
  {
    FirstMatch(VALUES, f, s, l)
  }

  /** At most one state holds for any three values. */
  lemma Exclusive(t1: TrendState, t2: TrendState, f: real, s: real, l: real)
    requires Holds(t1, f, s, l) && Holds(t2, f, s, l)
    ensures t1 == t2
  {
  }

  /** Classify finds a state exactly when the three values are distinct, and
      the state it finds is the only one that holds. */
  lemma ClassifyDistinct(f: real, s: real, l: real)
    ensures Classify(f, s, l).Some? <==> (f != s && s != l && f != l)
    ensures Classify(f, s, l).Some? ==>
      forall t :: Holds(t, f, s, l) <==> t == Classify(f, s, l).value
  {
    if f != s && s != l && f != l {
      var t :=
        if l < s && s < f then Bull
        else if l < f && f < s then LateBull
        else if f < l && l < s then EarlyBear
        else if f < s && s < l then Bear
        else if s < f && f < l then LateBear
        else EarlyBull;
      assert t in VALUES && Holds(t, f, s, l);
    }
    if Classify(f, s, l).Some? {
      forall t | Holds(t, f, s, l)
        ensures t == Classify(f, s, l).value
      {
        Exclusive(t, Classify(f, s, l).value, f, s, l);
      }
    }
  }
}
