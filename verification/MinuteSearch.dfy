/** A bounded search for the next minute that satisfies a predicate, whatever the predicate is. */
module MinuteSearch {
  import opened Common

  /** The number of minutes that are tried: 366 days. */
  const HORIZON := 60 * 24 * 366

  /** The least matching minute after `after` inside the horizon, or None if it holds none. */
  ghost predicate IsNext(matches: int -> bool, after: int, r: Option<int>) {
    match r
    case None => forall m :: after < m <= after + HORIZON ==> !matches(m)
    case Some(at) =>
      && after < at <= after + HORIZON
      && matches(at)
      && forall m :: after < m < at ==> !matches(m)
  }

  function Scan(matches: int -> bool, minute: int, limit: int): Option<int>
    decreases limit - minute
  {
    if minute > limit then None
    else if matches(minute) then Some(minute)
    else Scan(matches, minute + 1, limit)
  }

  function Next(matches: int -> bool, after: int): Option<int> {
    Scan(matches, after + 1, after + HORIZON)
  }

  lemma {:induction false} ScanFinds(matches: int -> bool, minute: int, limit: int)
    ensures match Scan(matches, minute, limit)
            case None => forall m :: minute <= m <= limit ==> !matches(m)
            case Some(at) =>
              minute <= at <= limit && matches(at) && forall m :: minute <= m < at ==> !matches(m)
    decreases limit - minute
  {
    if minute <= limit && !matches(minute) {
      ScanFinds(matches, minute + 1, limit);
    }
  }

  /** `Next` is the one result that a least-match search may return. */
  lemma NextUnique(matches: int -> bool, after: int, r: Option<int>)
    ensures IsNext(matches, after, r) <==> r == Next(matches, after)
  {
    ScanFinds(matches, after + 1, after + HORIZON);
    var s := Next(matches, after);
    if IsNext(matches, after, r) && r.Some? && s.Some? {
      assert !(r.value < s.value) && !(s.value < r.value);
    }
  }

  /** Every minute before the result gives the same result. */
  lemma SameUntilNext(matches: int -> bool, after: int, later: int)
    requires Next(matches, after).Some? && after <= later < Next(matches, after).value
    ensures Next(matches, later) == Next(matches, after)
  {
    NextUnique(matches, after, Next(matches, after));
    NextUnique(matches, later, Next(matches, after));
  }

  /** The first n results of feeding each result back into the search. */
  function Iterate(matches: int -> bool, after: int, n: nat): seq<int>
    decreases n
  {
    if n == 0 then []
    else match Next(matches, after)
      case None => []
      case Some(at) => [at] + Iterate(matches, at, n - 1)
  }

  /** Iterating the search lists the matching minutes in order, and skips none of them. */
  lemma {:induction false} IterateHasNoGaps(matches: int -> bool, after: int, n: nat)
    ensures var runs := Iterate(matches, after, n);
            && (forall i :: 0 <= i < |runs| ==> runs[i] > after && matches(runs[i]))
            && (forall i, j :: 0 <= i < j < |runs| ==> runs[i] < runs[j])
            && (runs != [] ==> forall m :: matches(m) && after < m <= runs[|runs| - 1] ==> m in runs)
    decreases n
  {
    if n > 0 && Next(matches, after).Some? {
      var at := Next(matches, after).value;
      NextUnique(matches, after, Some(at));
      IterateHasNoGaps(matches, at, n - 1);
      var rest := Iterate(matches, at, n - 1);
      assert Iterate(matches, after, n) == [at] + rest;
    }
  }
}
