/**
 Two deliveries of one job that overlap: which orders of their writes keep run and job coupled. Both are clean,
 so each writes P, the job is processed; R, the run is running; S, the run has ended; C, the job is completed.
 */
module Overlaps {
  import opened Common
  import opened RunRecords
  import opened SyncRuns

  const P: nat := 0
  const R: nat := 1
  const S: nat := 2
  const C: nat := 3

  function OneWrite(end: RunStatus, k: nat): Write {
    if k == P then SetJob(Processing)
    else if k == R then SetRun(Running)
    else if k == S then SetRun(end)
    else SetJob(Completed)
  }

  predicate IsEnd(end: RunStatus) {
    end == Success || end == RunFailed
  }

  function Four(end: RunStatus): seq<Write> {
    [OneWrite(end, P), OneWrite(end, R), OneWrite(end, S), OneWrite(end, C)]
  }

  /** An order of the eight writes: how many of the first delivery's come before each of the second's. */
  predicate IsOrder(ks: seq<nat>) {
    |ks| == 4 && ks[0] <= ks[1] <= ks[2] <= ks[3] <= 4
  }

  /** In that order, the x-th write of the first delivery comes before the y-th of the second. */
  predicate Before(ks: seq<nat>, x: nat, y: nat)
    requires |ks| == 4 && y < 4
  {
    x < ks[y]
  }

  /** The second delivery completes the job while the first has taken it and not ended the run, and the first one
      starts the run after the second has ended it. */
  predicate SecondCrosses(ks: seq<nat>)
    requires |ks| == 4
  {
    Before(ks, P, C) && !Before(ks, S, C) && !Before(ks, R, S)
  }

  /** The same with the deliveries the other way round. */
  predicate FirstCrosses(ks: seq<nat>)
    requires |ks| == 4
  {
    !Before(ks, C, P) && Before(ks, C, S) && Before(ks, S, R)
  }

  // ----- the writes in an order -----

  /** The next write is the j-th of the second delivery. */
  predicate SecondIsNext(ks: seq<nat>, i: nat, j: nat)
    requires |ks| == 4
  {
    j < 4 && (i == 4 || ks[j] <= i)
  }

  /** What is left when the first delivery has made i writes and the second j. */
  function Rest(a: RunStatus, b: RunStatus, ks: seq<nat>, i: nat, j: nat): seq<Write>
    requires |ks| == 4 && i <= 4 && j <= 4
    decreases 8 - i - j
  {
    if i == 4 && j == 4 then []
    else if SecondIsNext(ks, i, j) then [OneWrite(b, j)] + Rest(a, b, ks, i, j + 1)
    else [OneWrite(a, i)] + Rest(a, b, ks, i + 1, j)
  }

  /** It comes to that: exactly i and j writes are made at some time. */
  predicate On(ks: seq<nat>, i: nat, j: nat)
    requires |ks| == 4
  {
    && i <= 4 && j <= 4
    && (forall y :: 0 <= y < j ==> ks[y] <= i)
    && (forall y :: j <= y < 4 ==> ks[y] >= i)
  }

  /** The last of a delivery's first n writes that is one of two, or none. */
  function LastOf(n: nat, early: nat, late: nat): Option<nat> {
    if n > late then Some(late) else if n > early then Some(early) else None
  }

  /** The later of the last writes of the two deliveries. */
  function Latest(a: RunStatus, b: RunStatus, ks: seq<nat>, x: Option<nat>, y: Option<nat>): Option<Write>
    requires |ks| == 4 && (y.Some? ==> y.value < 4)
  {
    if x.None? && y.None? then None
    else if y.None? || (x.Some? && !Before(ks, x.value, y.value)) then Some(OneWrite(a, x.value))
    else Some(OneWrite(b, y.value))
  }

  function StateAt(a: RunStatus, b: RunStatus, ks: seq<nat>, i: nat, j: nat): Pair
    requires |ks| == 4
  {
    var run := Latest(a, b, ks, LastOf(i, R, S), LastOf(j, R, S));
    var job := Latest(a, b, ks, LastOf(i, P, C), LastOf(j, P, C));
    Pair(if run.Some? && run.value.SetRun? then Some(run.value.run) else Some(RunQueued),
         if job.Some? && job.value.SetJob? then Some(job.value.job) else Some(JobQueued))
  }

  lemma FirstSteps(a: RunStatus, b: RunStatus, ks: seq<nat>, i: nat, j: nat)
    requires IsOrder(ks) && On(ks, i, j) && i < 4 && !SecondIsNext(ks, i, j)
    ensures On(ks, i + 1, j)
    ensures StateAt(a, b, ks, i + 1, j) == Apply(StateAt(a, b, ks, i, j), OneWrite(a, i))
  {
  }

  lemma SecondStepsOn(ks: seq<nat>, i: nat, j: nat)
    requires IsOrder(ks) && On(ks, i, j) && SecondIsNext(ks, i, j)
    ensures ks[j] == i && On(ks, i, j + 1)
  {
  }

  lemma SecondSteps(a: RunStatus, b: RunStatus, ks: seq<nat>, i: nat, j: nat)
    requires IsOrder(ks) && i <= 4 && j < 4 && ks[j] == i
    ensures StateAt(a, b, ks, i, j + 1) == Apply(StateAt(a, b, ks, i, j), OneWrite(b, j))
  {
  }

  // ----- coupled along the order -----

  lemma CoupledAlongCons(p: Pair, w: Write, ws: seq<Write>)
    ensures CoupledAlong(p, [w] + ws) <==> Coupled(p) && CoupledAlong(Apply(p, w), ws)
  {
    TwoWrites(p, [w]);
    assert ApplyAll(p, ([w] + ws)[..0]) == p;
    forall n | 0 <= n <= |ws| ensures ApplyAll(p, ([w] + ws)[..n + 1]) == ApplyAll(Apply(p, w), ws[..n]) {
      assert ([w] + ws)[..n + 1] == [w] + ws[..n];
      ApplyConcat(p, [w], ws[..n]);
    }
    if CoupledAlong(p, [w] + ws) {
      assert Coupled(ApplyAll(p, ([w] + ws)[..0]));
      forall n | 0 <= n <= |ws| ensures Coupled(ApplyAll(Apply(p, w), ws[..n])) {
        assert Coupled(ApplyAll(p, ([w] + ws)[..n + 1]));
      }
    }
    if Coupled(p) && CoupledAlong(Apply(p, w), ws) {
      forall n | 0 <= n <= |[w] + ws| ensures Coupled(ApplyAll(p, ([w] + ws)[..n])) {
        if n > 0 {
          assert Coupled(ApplyAll(Apply(p, w), ws[..n - 1]));
          assert ([w] + ws)[..n - 1 + 1] == ([w] + ws)[..n];
        }
      }
    }
  }

  /** Something holds whenever the order comes by from some time on. */
  ghost predicate AllFrom(holds: (nat, nat) -> bool, ks: seq<nat>, i: nat, j: nat)
    requires |ks| == 4
  {
    forall k: nat, l: nat :: i <= k && j <= l && On(ks, k, l) ==> holds(k, l)
  }

  lemma FromSecond(holds: (nat, nat) -> bool, ks: seq<nat>, i: nat, j: nat)
    requires IsOrder(ks) && On(ks, i, j) && SecondIsNext(ks, i, j)
    ensures AllFrom(holds, ks, i, j) <==> holds(i, j) && AllFrom(holds, ks, i, j + 1)
  {
    forall k: nat, l: nat | i <= k && j <= l && On(ks, k, l) ensures (k == i && l == j) || j + 1 <= l {
    }
  }

  lemma FromFirst(holds: (nat, nat) -> bool, ks: seq<nat>, i: nat, j: nat)
    requires IsOrder(ks) && On(ks, i, j) && i < 4 && !SecondIsNext(ks, i, j)
    ensures AllFrom(holds, ks, i, j) <==> holds(i, j) && AllFrom(holds, ks, i + 1, j)
  {
    forall k: nat, l: nat | i <= k && j <= l && On(ks, k, l) ensures (k == i && l == j) || i + 1 <= k {
    }
  }

  function CoupledAt(a: RunStatus, b: RunStatus, ks: seq<nat>): (nat, nat) -> bool {
    (k: nat, l: nat) => |ks| == 4 && Coupled(StateAt(a, b, ks, k, l))
  }

  lemma {:induction false} RestIsCoupledIff(a: RunStatus, b: RunStatus, ks: seq<nat>, p: Pair, i: nat, j: nat)
    requires IsOrder(ks) && On(ks, i, j) && p == StateAt(a, b, ks, i, j)
    ensures CoupledAlong(p, Rest(a, b, ks, i, j)) <==> AllFrom(CoupledAt(a, b, ks), ks, i, j)
    decreases 8 - i - j
  {
    if i == 4 && j == 4 {
      assert ApplyAll(p, Rest(a, b, ks, i, j)[..0]) == p;
    } else if SecondIsNext(ks, i, j) {
      SecondStepsOn(ks, i, j);
      SecondSteps(a, b, ks, i, j);
      RestIsCoupledIff(a, b, ks, Apply(p, OneWrite(b, j)), i, j + 1);
      CoupledAlongCons(p, OneWrite(b, j), Rest(a, b, ks, i, j + 1));
      FromSecond(CoupledAt(a, b, ks), ks, i, j);
    } else {
      FirstSteps(a, b, ks, i, j);
      RestIsCoupledIff(a, b, ks, Apply(p, OneWrite(a, i)), i + 1, j);
      CoupledAlongCons(p, OneWrite(a, i), Rest(a, b, ks, i + 1, j));
      FromFirst(CoupledAt(a, b, ks), ks, i, j);
    }
  }

  lemma CoupledWithoutCrossing(a: RunStatus, b: RunStatus, ks: seq<nat>, i: nat, j: nat)
    requires IsEnd(a) && IsEnd(b) && IsOrder(ks) && On(ks, i, j)
    ensures !SecondCrosses(ks) && !FirstCrosses(ks) ==> Coupled(StateAt(a, b, ks, i, j))
  {
  }

  lemma CrossingUncouples(a: RunStatus, b: RunStatus, ks: seq<nat>)
    requires IsOrder(ks)
    ensures SecondCrosses(ks) ==> On(ks, 2, 4) && !Coupled(StateAt(a, b, ks, 2, 4))
    ensures FirstCrosses(ks) ==> On(ks, 4, 2) && !Coupled(StateAt(a, b, ks, 4, 2))
  {
  }

  lemma NoCrossingIff(a: RunStatus, b: RunStatus, ks: seq<nat>)
    requires IsEnd(a) && IsEnd(b) && IsOrder(ks)
    ensures AllFrom(CoupledAt(a, b, ks), ks, 0, 0) <==> !SecondCrosses(ks) && !FirstCrosses(ks)
  {
    CrossingUncouples(a, b, ks);
    if SecondCrosses(ks) {
      assert !CoupledAt(a, b, ks)(2, 4);
    } else if FirstCrosses(ks) {
      assert !CoupledAt(a, b, ks)(4, 2);
    } else {
      forall k: nat, l: nat | On(ks, k, l) ensures CoupledAt(a, b, ks)(k, l) {
        CoupledWithoutCrossing(a, b, ks, k, l);
      }
    }
  }

  // ----- every merge has an order -----

  lemma {:induction false} RestDepends(a: RunStatus, b: RunStatus, ks: seq<nat>, ls: seq<nat>, i: nat, j: nat)
    requires |ks| == |ls| == 4 && i <= 4 && j <= 4 && forall y :: j <= y < 4 ==> ks[y] == ls[y]
    ensures Rest(a, b, ks, i, j) == Rest(a, b, ls, i, j)
    decreases 8 - i - j
  {
    if i == 4 && j == 4 {
    } else if SecondIsNext(ks, i, j) {
      assert SecondIsNext(ls, i, j);
      RestDepends(a, b, ks, ls, i, j + 1);
    } else {
      assert !SecondIsNext(ls, i, j);
      RestDepends(a, b, ks, ls, i + 1, j);
    }
  }

  lemma SplitFour(end: RunStatus, i: nat)
    requires i < 4
    ensures Four(end)[i..] == [OneWrite(end, i)] + Four(end)[i + 1..]
    ensures Four(end)[i..] != [] && Four(end)[i..][0] == OneWrite(end, i) && Four(end)[i..][1..] == Four(end)[i + 1..]
  {
  }

  /** From some time on, how many writes of the first delivery come before each of the second. */
  predicate OrderFrom(ks: seq<nat>, i: nat, j: nat) {
    && |ks| == 4 && (forall y :: j <= y < 4 ==> i <= ks[y] <= 4)
    && (forall y, z :: j <= y < z < 4 ==> ks[y] <= ks[z])
  }

  /** The next write is the second delivery's: its place in an order of the rest. */
  lemma PutSecond(a: RunStatus, b: RunStatus, ls: seq<nat>, i: nat, j: nat)
    requires i <= 4 && j < 4 && OrderFrom(ls, i, j + 1)
    ensures OrderFrom(ls[j := i], i, j)
    ensures Rest(a, b, ls[j := i], i, j) == [OneWrite(b, j)] + Rest(a, b, ls, i, j + 1)
  {
    RestDepends(a, b, ls[j := i], ls, i, j + 1);
  }

  /** The next write is the first delivery's: an order of the rest serves. */
  lemma PutFirst(a: RunStatus, b: RunStatus, ks: seq<nat>, i: nat, j: nat)
    requires i < 4 && j <= 4 && OrderFrom(ks, i + 1, j)
    ensures OrderFrom(ks, i, j) && Rest(a, b, ks, i, j) == [OneWrite(a, i)] + Rest(a, b, ks, i + 1, j)
  {
  }

  lemma {:induction false} FindOrder(a: RunStatus, b: RunStatus, ws: seq<Write>, i: nat, j: nat, x: seq<Write>,
                                     y: seq<Write>)
    returns (ks: seq<nat>)
    requires i <= 4 && j <= 4 && x == Four(a)[i..] && y == Four(b)[j..] && Merges(ws, x, y)
    ensures OrderFrom(ks, i, j) && ws == Rest(a, b, ks, i, j)
    decreases 8 - i - j
  {
    if i < 4 {
      SplitFour(a, i);
    }
    if j < 4 {
      SplitFour(b, j);
    }
    if ws == [] {
      ks := [4, 4, 4, 4];
    } else if i < 4 && ws[0] == OneWrite(a, i) && Merges(ws[1..], x[1..], y) {
      ks := FindOrder(a, b, ws[1..], i + 1, j, x[1..], y);
      PutFirst(a, b, ks, i, j);
    } else {
      var ls := FindOrder(a, b, ws[1..], i, j + 1, x, y[1..]);
      ks := ls[j := i];
      PutSecond(a, b, ls, i, j);
    }
  }

  lemma FourWrites(pass: Result<Summary, RunError>)
    requires pass.Ok?
    ensures DeliveryWrites(pass, DELIVERY_CALLS, 0) == Four(StatusOf(pass.value)) == Four(StatusOf(pass.value))[0..]
  {
  }

  /** The writes of two clean deliveries that overlap in any way come in some order. */
  lemma EveryMergeIsAnOrder(pass: Result<Summary, RunError>, other: Result<Summary, RunError>, ws: seq<Write>)
    returns (ks: seq<nat>)
    requires pass.Ok? && other.Ok?
    requires Merges(ws, DeliveryWrites(pass, DELIVERY_CALLS, 0), DeliveryWrites(other, DELIVERY_CALLS, 0))
    ensures IsOrder(ks) && ws == Rest(StatusOf(pass.value), StatusOf(other.value), ks, 0, 0)
  {
    FourWrites(pass);
    FourWrites(other);
    var a, b := StatusOf(pass.value), StatusOf(other.value);
    ks := FindOrder(a, b, ws, 0, 0, Four(a), Four(b));
  }

  /** And every order of them is such an overlap. */
  lemma {:induction false} EveryOrderIsAMerge(a: RunStatus, b: RunStatus, ks: seq<nat>, i: nat, j: nat)
    requires IsOrder(ks) && i <= 4 && j <= 4
    ensures Merges(Rest(a, b, ks, i, j), Four(a)[i..], Four(b)[j..])
    decreases 8 - i - j
  {
    if i < 4 {
      SplitFour(a, i);
    }
    if j < 4 {
      SplitFour(b, j);
    }
    if i < 4 && !SecondIsNext(ks, i, j) {
      EveryOrderIsAMerge(a, b, ks, i + 1, j);
      assert Rest(a, b, ks, i, j)[1..] == Rest(a, b, ks, i + 1, j);
    } else if j < 4 {
      EveryOrderIsAMerge(a, b, ks, i, j + 1);
      assert Rest(a, b, ks, i, j)[1..] == Rest(a, b, ks, i, j + 1);
    }
  }

  /** Two clean deliveries that overlap keep run and job coupled from the queued state on iff neither crosses the
      other in the order of their writes. */
  lemma OverlapIff(pass: Result<Summary, RunError>, other: Result<Summary, RunError>, ks: seq<nat>)
    requires pass.Ok? && other.Ok? && IsOrder(ks)
    ensures var ws := Rest(StatusOf(pass.value), StatusOf(other.value), ks, 0, 0);
            && Merges(ws, DeliveryWrites(pass, DELIVERY_CALLS, 0), DeliveryWrites(other, DELIVERY_CALLS, 0))
            && (CoupledAlong(Pair(Some(RunQueued), Some(JobQueued)), ws)
                <==> !SecondCrosses(ks) && !FirstCrosses(ks))
  {
    var a, b := StatusOf(pass.value), StatusOf(other.value);
    FourWrites(pass);
    FourWrites(other);
    EveryOrderIsAMerge(a, b, ks, 0, 0);
    RestIsCoupledIff(a, b, ks, Pair(Some(RunQueued), Some(JobQueued)), 0, 0);
    NoCrossingIff(a, b, ks);
  }
}
