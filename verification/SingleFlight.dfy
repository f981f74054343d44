/**
 The poller as a step system: timer ticks, the awaited steps of polling cycles, and workers, in any order.
 The runs of a pipeline are created by one process's poller alone.
 */
module SingleFlight {
  import opened Common
  import opened SyncRuns

  datatype Run = Run(pipeline: string, status: RunStatus)

  datatype Due = Due(pipeline: string, valid: bool)

  /** What a cycle is waiting for; `rest` is what remains of its due list. */
  datatype Phase =
    | Starting
    | Finding
    | AtHead(rest: seq<Due>)
    | Skipping(rest: seq<Due>)
    | Creating(pipeline: string, rest: seq<Due>)
    | Queueing(rest: seq<Due>)
    | Executing(run: nat, rest: seq<Due>)
    | Advancing(rest: seq<Due>)
    | Auditing(rest: seq<Due>)
    | Finishing
    | Failing

  datatype State = State(runs: seq<Run>, cycles: seq<Phase>, pollInProgress: bool, lockUntil: int)

  datatype Config = Config(async: bool, lockTtlMs: nat)

  /** How an awaited call ends; `EndsThenThrows` is a synchronous run that ends and throws after that. */
  datatype Move = Go | Found(due: seq<Due>) | Throw | EndsThenThrows

  datatype Event =
    | Tick(now: int)
    | CycleMoves(c: nat, move: Move)
    | WorkerTakes(r: nat)
    | WorkerEnds(r: nat, clean: bool)
    | Redelivered(r: nat)

  predicate IsActive(run: Run) {
    run.status == RunQueued || run.status == Running
  }

  predicate HasActiveRun(runs: seq<Run>, pipeline: string) {
    exists r :: 0 <= r < |runs| && runs[r].pipeline == pipeline && IsActive(runs[r])
  }

  /** One step of a cycle: the runs it leaves, and the next wait, or None when the cycle is over. */
  function MoveCycle(config: Config, runs: seq<Run>, phase: Phase, move: Move): (seq<Run>, Option<Phase>) {
    if move == Throw then (runs, if phase == Failing then None else Some(Failing))
    else match phase
      case Starting => (runs, Some(Finding))
      case Finding => (runs, Some(AtHead(if move.Found? then move.due else [])))
      case AtHead(rest) =>
        if rest == [] then (runs, Some(Finishing))
        else if !rest[0].valid || HasActiveRun(runs, rest[0].pipeline) then (runs, Some(Skipping(rest[1..])))
        else (runs, Some(Creating(rest[0].pipeline, rest[1..])))
      case Skipping(rest) => (runs, Some(AtHead(rest)))
      case Creating(pipeline, rest) =>
        if config.async then (runs + [Run(pipeline, RunQueued)], Some(Queueing(rest)))
        else (runs + [Run(pipeline, Running)], Some(Executing(|runs|, rest)))
      case Queueing(rest) => (runs, Some(Advancing(rest)))
      case Executing(run, rest) =>
        (SetStatus(runs, run, Success), Some(if move == EndsThenThrows then Failing else Advancing(rest)))
      case Advancing(rest) => (runs, Some(Auditing(rest)))
      case Auditing(rest) => (runs, Some(AtHead(rest)))
      case Finishing => (runs, None)
      case Failing => (runs, None)
  }

  function SetStatus(runs: seq<Run>, r: nat, status: RunStatus): seq<Run> {
    if r < |runs| then runs[r := runs[r].(status := status)] else runs
  }

  function Moved(runs: seq<Run>, r: nat, from: RunStatus, to: RunStatus): seq<Run> {
    if r < |runs| && runs[r].status == from then SetStatus(runs, r, to) else runs
  }

  function Step(config: Config, s: State, e: Event): State {
    match e
    case Tick(now) =>
      if s.pollInProgress || now < s.lockUntil then s
      else State(s.runs, s.cycles + [Starting], true, now + config.lockTtlMs)
    case CycleMoves(c, move) =>
      if c >= |s.cycles| then s
      else
        var (runs, next) := MoveCycle(config, s.runs, s.cycles[c], move);
        (match next
         case Some(phase) => s.(runs := runs, cycles := s.cycles[c := phase])
         case None => State(runs, s.cycles[..c] + s.cycles[c + 1..], false, 0))
    case WorkerTakes(r) => if config.async then s.(runs := Moved(s.runs, r, RunQueued, Running)) else s
    case WorkerEnds(r, clean) =>
      if config.async then s.(runs := Moved(s.runs, r, Running, if clean then Success else RunFailed)) else s
    case Redelivered(r) => if config.async then s.(runs := SetStatus(s.runs, r, Running)) else s
  }

  // ----- histories -----

  datatype History = Start(runs: seq<Run>) | Then(past: History, e: Event)

  function StateOf(config: Config, h: History): State {
    match h
    case Start(runs) => State(runs, [], false, 0)
    case Then(past, e) => Step(config, StateOf(config, past), e)
  }

  predicate NoRedelivery(h: History) {
    h.Then? ==> !h.e.Redelivered? && NoRedelivery(h.past)
  }

  ghost predicate StartsWell(h: History) {
    match h case Start(runs) => AtMostOneActive(runs) case Then(past, _) => StartsWell(past)
  }

  // ----- the invariant -----

  ghost predicate AtMostOneActive(runs: seq<Run>) {
    forall i, j :: 0 <= i < j < |runs| && IsActive(runs[i]) && IsActive(runs[j]) ==>
      runs[i].pipeline != runs[j].pipeline
  }

  predicate OneCycle(s: State) {
    && |s.cycles| <= 1
    && (s.pollInProgress <==> |s.cycles| == 1)
    && (s.lockUntil != 0 ==> s.pollInProgress)
  }

  /** A cycle that is about to create a run has no active run of that pipeline beside it. */
  ghost predicate CreatesAlone(s: State) {
    forall c :: 0 <= c < |s.cycles| && s.cycles[c].Creating? ==> !HasActiveRun(s.runs, s.cycles[c].pipeline)
  }

  ghost predicate Inv(s: State) {
    OneCycle(s) && AtMostOneActive(s.runs) && CreatesAlone(s)
  }

  lemma CycleKeepsInv(config: Config, s: State, c: nat, move: Move)
    requires Inv(s)
    ensures Inv(Step(config, s, CycleMoves(c, move)))
  {
  }

  /** A worker that moves a run from one status to another, without making it active again. */
  lemma WorkerKeepsInv(s: State, r: nat, from: RunStatus, to: RunStatus)
    requires Inv(s) && (from == RunQueued || from == Running)
    ensures Inv(s.(runs := Moved(s.runs, r, from, to)))
  {
  }

  // ----- redelivery: a worker starts a run again, whatever its status -----

  /** A cycle has passed the check for active runs of the pipeline and has not created its run yet. */
  predicate AboutToCreate(s: State, pipeline: string) {
    exists c :: 0 <= c < |s.cycles| && s.cycles[c].Creating? && s.cycles[c].pipeline == pipeline
  }

  /** Nothing makes a second run of this one: it is active anyway, or its pipeline has no active run and no
      cycle is about to create one. */
  predicate MayRedeliver(s: State, r: nat)
    requires r < |s.runs|
  {
    IsActive(s.runs[r]) || (!HasActiveRun(s.runs, s.runs[r].pipeline) && !AboutToCreate(s, s.runs[r].pipeline))
  }

  lemma ActiveBeside(runs: seq<Run>, r: nat)
    requires r < |runs| && IsActive(runs[r])
    ensures HasActiveRun(runs, runs[r].pipeline)
  {
  }

  /** A redelivery keeps single flight, now and for the cycles under way, iff it is allowed. */
  lemma RedeliveryKeepsIff(config: Config, s: State, r: nat)
    requires Inv(s) && config.async && r < |s.runs|
    ensures Inv(Step(config, s, Redelivered(r))) <==> MayRedeliver(s, r)
  {
    var t := Step(config, s, Redelivered(r));
    var p := s.runs[r].pipeline;
    ActiveBeside(t.runs, r);
    if !MayRedeliver(s, r) && HasActiveRun(s.runs, p) {
      var k :| 0 <= k < |s.runs| && s.runs[k].pipeline == p && IsActive(s.runs[k]);
      assert IsActive(t.runs[k]) && t.runs[k].pipeline == t.runs[r].pipeline;
    }
    if MayRedeliver(s, r) {
      AllowedKeepsInv(config, s, r);
    }
  }

  lemma AllowedKeepsInv(config: Config, s: State, r: nat)
    requires Inv(s) && config.async && r < |s.runs| && MayRedeliver(s, r)
    ensures Inv(Step(config, s, Redelivered(r)))
  {
  }

  /** No pipeline has two active runs, nor gets them by one more step of a cycle. */
  ghost predicate Safe(config: Config, s: State) {
    && AtMostOneActive(s.runs)
    && forall c: nat :: AtMostOneActive(Step(config, s, CycleMoves(c, Go)).runs)
  }

  lemma InvIsSafe(config: Config, s: State)
    requires Inv(s)
    ensures Safe(config, s)
  {
  }

  /** A redelivery that is not allowed gives its pipeline a second active run, at once or one step later. */
  lemma ForbiddenBreaks(config: Config, s: State, r: nat)
    requires Inv(s) && config.async && r < |s.runs| && !MayRedeliver(s, r)
    ensures !Safe(config, Step(config, s, Redelivered(r)))
  {
    var t := Step(config, s, Redelivered(r));
    var p := s.runs[r].pipeline;
    if HasActiveRun(s.runs, p) {
      var k :| 0 <= k < |s.runs| && s.runs[k].pipeline == p && IsActive(s.runs[k]);
      assert IsActive(t.runs[k]) && IsActive(t.runs[r]) && t.runs[k].pipeline == t.runs[r].pipeline;
    } else {
      var c :| 0 <= c < |s.cycles| && s.cycles[c].Creating? && s.cycles[c].pipeline == p;
      var runs := Step(config, t, CycleMoves(c, Go)).runs;
      assert runs[r] == t.runs[r] && runs[|t.runs|].pipeline == p && IsActive(runs[|t.runs|]);
    }
  }

  /** Every redelivery of the history is allowed. */
  predicate AllAllowed(config: Config, h: History) {
    h.Then? ==>
      && AllAllowed(config, h.past)
      && var s := StateOf(config, h.past);
         (config.async && h.e.Redelivered? && h.e.r < |s.runs| ==> MayRedeliver(s, h.e.r))
  }

  ghost predicate SafeThroughout(config: Config, h: History) {
    Safe(config, StateOf(config, h)) && (h.Then? ==> SafeThroughout(config, h.past))
  }

  /** However ticks, cycle steps, workers and allowed redeliveries interleave: cycles never overlap, a lock time
      that is set means a poll is in progress, and no pipeline ever has two runs that are queued or running. */
  lemma {:induction false} AllowedIsEnough(config: Config, h: History)
    requires AllAllowed(config, h) && StartsWell(h)
    ensures Inv(StateOf(config, h))
  {
    match h
    case Start(_) =>
    case Then(past, e) =>
      AllowedIsEnough(config, past);
      var s := StateOf(config, past);
      match e {
        case Tick(_) =>
        case CycleMoves(c, move) => CycleKeepsInv(config, s, c, move);
        case WorkerTakes(r) => WorkerKeepsInv(s, r, RunQueued, Running);
        case WorkerEnds(r, clean) => WorkerKeepsInv(s, r, Running, if clean then Success else RunFailed);
        case Redelivered(r) =>
          if config.async && r < |s.runs| {
            AllowedKeepsInv(config, s, r);
          }
      }
  }

  /** A history is safe throughout iff each of its redeliveries is allowed where it happens. */
  lemma {:induction false} SafeIffAllowed(config: Config, h: History)
    requires StartsWell(h)
    ensures SafeThroughout(config, h) <==> AllAllowed(config, h)
  {
    match h
    case Start(_) => InvIsSafe(config, StateOf(config, h));
    case Then(past, e) =>
      SafeIffAllowed(config, past);
      if AllAllowed(config, past) {
        AllowedIsEnough(config, past);
        if AllAllowed(config, h) {
          AllowedIsEnough(config, h);
          InvIsSafe(config, StateOf(config, h));
        } else {
          ForbiddenBreaks(config, StateOf(config, past), e.r);
        }
      }
  }

  lemma {:induction false} NoneIsAllowed(config: Config, h: History)
    requires NoRedelivery(h)
    ensures AllAllowed(config, h)
  {
    match h
    case Start(_) =>
    case Then(past, _) => NoneIsAllowed(config, past);
  }

  /** In particular all of it holds as long as no job is delivered again. */
  lemma SingleFlightAlways(config: Config, h: History)
    requires NoRedelivery(h) && StartsWell(h)
    ensures Inv(StateOf(config, h))
  {
    NoneIsAllowed(config, h);
    AllowedIsEnough(config, h);
  }

  /** The lock's expiry never decides: a tick starts a cycle iff no poll is in progress. */
  lemma ExpiryNeverDecides(config: Config, h: History, now: nat)
    requires AllAllowed(config, h) && StartsWell(h)
    ensures var s := StateOf(config, h);
            Step(config, s, Tick(now)).cycles != s.cycles <==> !s.pollInProgress
  {
    AllowedIsEnough(config, h);
  }

  // ----- two ways in which a redelivery breaks it -----

  /** The steps of a cycle that waits n times without a failure. */
  function Going(h: History, n: nat): History {
    if n == 0 then h else Then(Going(h, n - 1), CycleMoves(0, Go))
  }

  lemma {:induction false} GoingKeeps(h: History, n: nat)
    ensures NoRedelivery(Going(h, n)) == NoRedelivery(h) && StartsWell(Going(h, n)) == StartsWell(h)
  {
    if n == 0 {
    } else {
      GoingKeeps(h, n - 1);
    }
  }

  /** An idle poller wakes up and finds one due pipeline. */
  function Checked(h: History, p: string): History {
    Going(Then(Going(Then(h, Tick(0)), 1), CycleMoves(0, Found([Due(p, true)]))), 1)
  }

  predicate Idle(s: State) {
    s.cycles == [] && !s.pollInProgress && s.lockUntil == 0
  }

  /** Without an active run of that pipeline, it then stands before the creation of a run. */
  lemma StandsBeforeCreate(config: Config, h: History, p: string)
    requires Idle(StateOf(config, h)) && !HasActiveRun(StateOf(config, h).runs, p)
    ensures StateOf(config, Checked(h, p)) == State(StateOf(config, h).runs, [Creating(p, [])], true, config.lockTtlMs)
    ensures NoRedelivery(Checked(h, p)) == NoRedelivery(h) && StartsWell(Checked(h, p)) == StartsWell(h)
  {
    var s, due := StateOf(config, h), [Due(p, true)];
    var ticked := Then(h, Tick(0));
    assert StateOf(config, ticked) == State(s.runs, [Starting], true, config.lockTtlMs);
    Went(config, ticked, 0, s.runs, Finding);
    var found := Then(Going(ticked, 1), CycleMoves(0, Found(due)));
    assert StateOf(config, found) == State(s.runs, [AtHead(due)], true, config.lockTtlMs);
    assert due[1..] == [];
    Went(config, found, 0, s.runs, Creating(p, []));
    GoingKeeps(ticked, 1);
    GoingKeeps(found, 1);
  }

  /** With an asynchronous queue it goes on to fire the pipeline once, and reaches the end of its list. */
  lemma FiresOnce(config: Config, h: History, p: string)
    requires config.async && Idle(StateOf(config, h)) && !HasActiveRun(StateOf(config, h).runs, p)
    ensures StateOf(config, Going(Checked(h, p), 4)) ==
            State(StateOf(config, h).runs + [Run(p, RunQueued)], [AtHead([])], true, config.lockTtlMs)
    ensures NoRedelivery(Going(Checked(h, p), 4)) == NoRedelivery(h)
    ensures StartsWell(Going(Checked(h, p), 4)) == StartsWell(h)
  {
    var runs, checked := StateOf(config, h).runs + [Run(p, RunQueued)], Checked(h, p);
    StandsBeforeCreate(config, h, p);
    Went(config, checked, 0, runs, Queueing([]));
    Went(config, checked, 1, runs, Advancing([]));
    Went(config, checked, 2, runs, Auditing([]));
    Went(config, checked, 3, runs, AtHead([]));
    GoingKeeps(checked, 4);
  }

  lemma Went(config: Config, h: History, n: nat, runs: seq<Run>, phase: Phase)
    requires var s := StateOf(config, Going(h, n));
             |s.cycles| == 1 && MoveCycle(config, s.runs, s.cycles[0], Go) == (runs, Some(phase))
    ensures StateOf(config, Going(h, n + 1)) == StateOf(config, Going(h, n)).(runs := runs, cycles := [phase])
  {
  }

  /** The poller fires and its cycle ends. */
  lemma FiresAndEnds(config: Config, h: History, p: string) returns (over: History)
    requires config.async && StateOf(config, h) == State([], [], false, 0)
    ensures NoRedelivery(over) == NoRedelivery(h) && StartsWell(over) == StartsWell(h)
    ensures StateOf(config, over) == State([Run(p, RunQueued)], [], false, 0)
  {
    var fired := Going(Checked(h, p), 4);
    FiresOnce(config, h, p);
    assert [] + [Run(p, RunQueued)] == [Run(p, RunQueued)];
    Went(config, fired, 0, [Run(p, RunQueued)], Finishing);
    over := Then(Going(fired, 1), CycleMoves(0, Go));
    GoingKeeps(fired, 1);
  }

  /** A worker takes the only run and fails it. */
  lemma WorkerFails(config: Config, h: History, p: string) returns (failed: History)
    requires config.async && StateOf(config, h) == State([Run(p, RunQueued)], [], false, 0)
    ensures NoRedelivery(failed) == NoRedelivery(h) && StartsWell(failed) == StartsWell(h)
    ensures StateOf(config, failed) == State([Run(p, RunFailed)], [], false, 0)
  {
    var taken := Then(h, WorkerTakes(0));
    assert StateOf(config, taken) == State([Run(p, Running)], [], false, 0);
    failed := Then(taken, WorkerEnds(0, false));
  }

  /** One redelivery of a failed job is enough to break it: the poller fires, the run fails, the poller fires
      again, and the first run is delivered once more. */
  lemma RedeliveryBreaks(config: Config, p: string) returns (h: History)
    requires config.async
    ensures h.Then? && h.e.Redelivered? && NoRedelivery(h.past) && StartsWell(h)
    ensures !AtMostOneActive(StateOf(config, h).runs)
  {
    var over := FiresAndEnds(config, Start([]), p);
    var failed := WorkerFails(config, over, p);
    FiresOnce(config, failed, p);
    h := Then(Going(Checked(failed, p), 4), Redelivered(0));
    var before, runs := StateOf(config, h.past).runs, StateOf(config, h).runs;
    assert before == [Run(p, RunFailed), Run(p, RunQueued)];
    assert runs[0] == Run(p, Running) && runs[1] == Run(p, RunQueued);
    assert IsActive(runs[0]) && IsActive(runs[1]);
  }

  /** The other way: the poller has found no active run and is about to create one when the failed run is
      delivered again; nothing is active beside it then, but one step later there is. */
  lemma RedeliveryRacesCheck(config: Config, p: string) returns (h: History)
    requires config.async
    ensures h.Then? && h.e.Redelivered? && NoRedelivery(h.past) && StartsWell(h)
    ensures AtMostOneActive(StateOf(config, h).runs)
    ensures !AtMostOneActive(StateOf(config, Then(h, CycleMoves(0, Go))).runs)
  {
    var over := FiresAndEnds(config, Start([]), p);
    var failed := WorkerFails(config, over, p);
    StandsBeforeCreate(config, failed, p);
    h := Then(Checked(failed, p), Redelivered(0));
    var runs := StateOf(config, h).runs;
    assert runs == [Run(p, Running)];
    var after := StateOf(config, Then(h, CycleMoves(0, Go))).runs;
    assert after == [Run(p, Running), Run(p, RunQueued)];
    assert IsActive(after[0]) && IsActive(after[1]);
  }

  // ----- a synchronous run that throws -----

  /** Nobody will end the run: no cycle executes it, and without a queue there are no workers. */
  ghost predicate Stuck(config: Config, s: State, r: nat) {
    && !config.async && r < |s.runs| && IsActive(s.runs[r])
    && forall c :: 0 <= c < |s.cycles| && s.cycles[c].Executing? ==> s.cycles[c].run != r
  }

  /** It comes to that: the poller fires, and the run throws while the cycle executes it. */
  lemma StuckIsReached(config: Config, p: string) returns (h: History)
    requires !config.async
    ensures NoRedelivery(h) && StartsWell(h) && Stuck(config, StateOf(config, h), 0)
    ensures StateOf(config, h).runs == [Run(p, Running)]
  {
    var checked := Checked(Start([]), p);
    StandsBeforeCreate(config, Start([]), p);
    var executing := Then(checked, CycleMoves(0, Go));
    assert StateOf(config, executing) == State([Run(p, Running)], [Executing(0, [])], true, config.lockTtlMs);
    h := Then(executing, CycleMoves(0, Throw));
    assert StateOf(config, h).cycles == [Failing];
  }

  function RunsOf(runs: seq<Run>, p: string): nat {
    if runs == [] then 0 else RunsOf(runs[..|runs| - 1], p) + if runs[|runs| - 1].pipeline == p then 1 else 0
  }

  lemma {:induction false} StatusKeepsCount(runs: seq<Run>, r: nat, status: RunStatus, p: string)
    ensures RunsOf(SetStatus(runs, r, status), p) == RunsOf(runs, p)
  {
    if r >= |runs| {
    } else {
      var n := |runs| - 1;
      if r < n {
        StatusKeepsCount(runs[..n], r, status, p);
        assert SetStatus(runs, r, status)[..n] == SetStatus(runs[..n], r, status);
      } else {
        assert SetStatus(runs, r, status)[..n] == runs[..n];
      }
    }
  }

  lemma StuckStep(config: Config, s: State, e: Event, r: nat)
    requires Inv(s) && Stuck(config, s, r)
    ensures var t := Step(config, s, e);
            && Stuck(config, t, r) && t.runs[r] == s.runs[r]
            && RunsOf(t.runs, s.runs[r].pipeline) == RunsOf(s.runs, s.runs[r].pipeline)
  {
    var p := s.runs[r].pipeline;
    if e.CycleMoves? && e.c < |s.cycles| {
      assert HasActiveRun(s.runs, p);
      match s.cycles[e.c] {
        case Creating(other, _) =>
          assert other != p;
          assert forall run: Run :: (s.runs + [run])[..|s.runs|] == s.runs;
        case Executing(run, _) => StatusKeepsCount(s.runs, run, Success, p);
        case _ =>
      }
    }
  }

  function Extended(h: History, events: seq<Event>): History {
    if events == [] then h else Then(Extended(h, events[..|events| - 1]), events[|events| - 1])
  }

  lemma {:induction false} ExtendedKeeps(h: History, events: seq<Event>)
    requires StartsWell(h) && NoRedelivery(h) && forall i :: 0 <= i < |events| ==> !events[i].Redelivered?
    ensures StartsWell(Extended(h, events)) && NoRedelivery(Extended(h, events))
  {
    if events == [] {
    } else {
      ExtendedKeeps(h, events[..|events| - 1]);
    }
  }

  /** A synchronous scheduled run that an exception has left running blocks its pipeline for ever: whatever
      happens next, it stays active and the poller never creates another run for that pipeline. */
  lemma {:induction false} StuckForever(config: Config, h: History, r: nat, events: seq<Event>)
    requires StartsWell(h) && NoRedelivery(h) && forall i :: 0 <= i < |events| ==> !events[i].Redelivered?
    requires Stuck(config, StateOf(config, h), r)
    ensures var s := StateOf(config, h); var t := StateOf(config, Extended(h, events));
            && Stuck(config, t, r) && t.runs[r] == s.runs[r]
            && RunsOf(t.runs, s.runs[r].pipeline) == RunsOf(s.runs, s.runs[r].pipeline)
  {
    if events == [] {
    } else {
      var n := |events| - 1;
      StuckForever(config, h, r, events[..n]);
      ExtendedKeeps(h, events[..n]);
      SingleFlightAlways(config, Extended(h, events[..n]));
      StuckStep(config, StateOf(config, Extended(h, events[..n])), events[n], r);
    }
  }
}
