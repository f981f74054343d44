/**
 The poll of the scheduler service as one undisturbed cycle of the step system: in either queue mode and for
 every placement of failing calls, both create runs of the same pipelines in the same order, and end alike.
 */
module PollCycles {
  import opened Common
  import opened SyncRuns
  import Scheduler
  import SF = SingleFlight

  type Visit = Scheduler.Visit
  type Answer = Scheduler.Answer

  /** The steps of a cycle whose awaited calls end as `moves` say. */
  function Moving(h: SF.History, moves: seq<SF.Move>): SF.History {
    if moves == [] then h else SF.Then(Moving(h, moves[..|moves| - 1]), SF.CycleMoves(0, moves[|moves| - 1]))
  }

  lemma {:induction false} MovingOn(h: SF.History, a: seq<SF.Move>, b: seq<SF.Move>)
    ensures Moving(Moving(h, a), b) == Moving(h, a + b)
  {
    if b == [] {
      assert a + b == a;
    } else {
      assert (a + b)[..|a + b| - 1] == a + b[..|b| - 1];
      MovingOn(h, a, b[..|b| - 1]);
    }
  }

  /** The state of the one cycle that moves. */
  predicate At(s: SF.State, runs: seq<SF.Run>, phase: SF.Phase) {
    s.runs == runs && s.cycles == [phase]
  }

  lemma Goes(config: SF.Config, h: SF.History, move: SF.Move, phase: SF.Phase, runs: seq<SF.Run>, next: SF.Phase)
    requires var s := SF.StateOf(config, h);
             At(s, s.runs, phase) && SF.MoveCycle(config, s.runs, phase, move) == (runs, Some(next))
    ensures SF.StateOf(config, Moving(h, [move])) == SF.StateOf(config, h).(runs := runs, cycles := [next])
  {
  }

  // ----- one due pipeline -----

  /** The visit of a row whose schedule is valid or not. */
  ghost predicate IsVisit(valid: bool, answer: Answer, visit: Visit) {
    exists schedule: Option<Option<int>> :: schedule.Some? == valid && visit == Scheduler.VisitOf(schedule, answer)
  }

  /** The schedule of the visit is valid iff the due entry says so, and the check for active runs is answered
      from `runs`; which call throws is free. */
  ghost predicate Foresees(runs: seq<SF.Run>, due: SF.Due, answer: Answer, visit: Visit) {
    && answer.active == SF.HasActiveRun(runs, due.pipeline)
    && IsVisit(due.valid, answer, visit)
  }

  /** How the run of a visit stands when the visit is over: a synchronous run has ended unless it threw. */
  function StatusLeft(config: SF.Config, answer: Answer): RunStatus {
    if config.async then RunQueued
    else if answer.fault == Scheduler.RunThrows(true) then Running
    else Success
  }

  function RunsMade(config: SF.Config, due: SF.Due, answer: Answer, visit: Visit): seq<SF.Run> {
    if visit.started then [SF.Run(due.pipeline, StatusLeft(config, answer))] else []
  }

  function PhaseAfter(rest: seq<SF.Due>, visit: Visit): SF.Phase {
    if visit.verdict == Scheduler.Threw then SF.Failing else SF.AtHead(rest)
  }

  /** An entry that is skipped: its schedule is invalid, or it has an active run. */
  lemma CycleSkips(config: SF.Config, h: SF.History, dues: seq<SF.Due>, throws: bool) returns (moves: seq<SF.Move>)
    requires dues != [] && At(SF.StateOf(config, h), SF.StateOf(config, h).runs, SF.AtHead(dues))
    requires !dues[0].valid || SF.HasActiveRun(SF.StateOf(config, h).runs, dues[0].pipeline)
    ensures SF.StateOf(config, Moving(h, moves)) ==
            SF.StateOf(config, h).(cycles := [if throws then SF.Failing else SF.AtHead(dues[1..])])
  {
    var runs := SF.StateOf(config, h).runs;
    var last := if throws then SF.Throw else SF.Go;
    Goes(config, h, SF.Go, SF.AtHead(dues), runs, SF.Skipping(dues[1..]));
    Goes(config, Moving(h, [SF.Go]), last, SF.Skipping(dues[1..]), runs,
         if throws then SF.Failing else SF.AtHead(dues[1..]));
    moves := [SF.Go] + [last];
    MovingOn(h, [SF.Go], [last]);
  }

  /** An entry without an active run, up to the wait before its run is created. */
  lemma CycleChecks(config: SF.Config, h: SF.History, dues: seq<SF.Due>)
    requires dues != [] && At(SF.StateOf(config, h), SF.StateOf(config, h).runs, SF.AtHead(dues))
    requires dues[0].valid && !SF.HasActiveRun(SF.StateOf(config, h).runs, dues[0].pipeline)
    ensures SF.StateOf(config, Moving(h, [SF.Go])) ==
            SF.StateOf(config, h).(cycles := [SF.Creating(dues[0].pipeline, dues[1..])])
  {
  }

  /** The run is created, and the call after that goes well or throws. */
  lemma CycleCreates(config: SF.Config, h: SF.History, p: string, rest: seq<SF.Due>, throws: bool)
    returns (moves: seq<SF.Move>)
    requires At(SF.StateOf(config, h), SF.StateOf(config, h).runs, SF.Creating(p, rest))
    ensures var status := if config.async then RunQueued else if throws then Running else Success;
            SF.StateOf(config, Moving(h, moves)) ==
            SF.StateOf(config, h).(runs := SF.StateOf(config, h).runs + [SF.Run(p, status)],
                                   cycles := [if throws then SF.Failing else SF.Advancing(rest)])
  {
    var runs := SF.StateOf(config, h).runs;
    var made := runs + [SF.Run(p, if config.async then RunQueued else Running)];
    var waits := if config.async then SF.Queueing(rest) else SF.Executing(|runs|, rest);
    var last := if throws then SF.Throw else SF.Go;
    Goes(config, h, SF.Go, SF.Creating(p, rest), made, waits);
    var after := if config.async || throws then made else SF.SetStatus(made, |runs|, Success);
    assert after == runs + [SF.Run(p, if config.async then RunQueued else if throws then Running else Success)];
    Goes(config, Moving(h, [SF.Go]), last, waits, after, if throws then SF.Failing else SF.Advancing(rest));
    moves := [SF.Go] + [last];
    MovingOn(h, [SF.Go], [last]);
  }

  /** The update of the next run, and the audit after it. */
  lemma CycleAdvances(config: SF.Config, h: SF.History, rest: seq<SF.Due>, fault: Scheduler.Fault)
    returns (moves: seq<SF.Move>)
    requires At(SF.StateOf(config, h), SF.StateOf(config, h).runs, SF.Advancing(rest))
    ensures var failed := fault == Scheduler.AdvanceThrows || fault == Scheduler.AuditThrows;
            SF.StateOf(config, Moving(h, moves)) ==
            SF.StateOf(config, h).(cycles := [if failed then SF.Failing else SF.AtHead(rest)])
  {
    var runs := SF.StateOf(config, h).runs;
    if fault == Scheduler.AdvanceThrows {
      Goes(config, h, SF.Throw, SF.Advancing(rest), runs, SF.Failing);
      return [SF.Throw];
    }
    var last := if fault == Scheduler.AuditThrows then SF.Throw else SF.Go;
    Goes(config, h, SF.Go, SF.Advancing(rest), runs, SF.Auditing(rest));
    Goes(config, Moving(h, [SF.Go]), last, SF.Auditing(rest), runs,
         if fault == Scheduler.AuditThrows then SF.Failing else SF.AtHead(rest));
    moves := [SF.Go] + [last];
    MovingOn(h, [SF.Go], [last]);
  }

  /** A whole visit of an entry that gets a run, or that fails on the way to it. */
  lemma CycleFires(config: SF.Config, h: SF.History, dues: seq<SF.Due>, answer: Answer, visit: Visit)
    returns (moves: seq<SF.Move>)
    requires dues != [] && At(SF.StateOf(config, h), SF.StateOf(config, h).runs, SF.AtHead(dues))
    requires dues[0].valid && !SF.HasActiveRun(SF.StateOf(config, h).runs, dues[0].pipeline) && !answer.active
    requires IsVisit(true, answer, visit)
    requires answer.fault != Scheduler.CheckThrows
    ensures SF.StateOf(config, Moving(h, moves)) ==
            SF.StateOf(config, h).(runs := SF.StateOf(config, h).runs + RunsMade(config, dues[0], answer, visit),
                                   cycles := [PhaseAfter(dues[1..], visit)])
  {
    var runs, p, rest := SF.StateOf(config, h).runs, dues[0].pipeline, dues[1..];
    CycleChecks(config, h, dues);
    var checked := Moving(h, [SF.Go]);
    if answer.fault == Scheduler.RunThrows(false) {
      Goes(config, checked, SF.Throw, SF.Creating(p, rest), runs, SF.Failing);
      MovingOn(h, [SF.Go], [SF.Throw]);
      assert runs + [] == runs;
      return [SF.Go] + [SF.Throw];
    }
    var create := CycleCreates(config, checked, p, rest, answer.fault == Scheduler.RunThrows(true));
    MovingOn(h, [SF.Go], create);
    moves := [SF.Go] + create;
    if answer.fault != Scheduler.RunThrows(true) {
      var advance := CycleAdvances(config, Moving(h, moves), rest, answer.fault);
      MovingOn(h, moves, advance);
      moves := moves + advance;
    }
  }

  /** A visit of the service and the steps of the cycle create the same runs, and throw alike. */
  lemma CycleVisits(config: SF.Config, h: SF.History, dues: seq<SF.Due>, answer: Answer, visit: Visit)
    returns (moves: seq<SF.Move>)
    requires dues != [] && At(SF.StateOf(config, h), SF.StateOf(config, h).runs, SF.AtHead(dues))
    requires Foresees(SF.StateOf(config, h).runs, dues[0], answer, visit)
    ensures SF.StateOf(config, Moving(h, moves)) ==
            SF.StateOf(config, h).(runs := SF.StateOf(config, h).runs + RunsMade(config, dues[0], answer, visit),
                                   cycles := [PhaseAfter(dues[1..], visit)])
  {
    var runs := SF.StateOf(config, h).runs;
    assert runs + [] == runs;
    if dues[0].valid && answer.fault == Scheduler.CheckThrows {
      Goes(config, h, SF.Throw, SF.AtHead(dues), runs, SF.Failing);
      moves := [SF.Throw];
    } else if !dues[0].valid || answer.active {
      moves := CycleSkips(config, h, dues, answer.fault == Scheduler.AuditThrows);
    } else {
      moves := CycleFires(config, h, dues, answer, visit);
    }
  }

  // ----- the whole list -----

  function Ids(dues: seq<SF.Due>): (r: seq<string>)
    ensures |r| == |dues| && forall i :: 0 <= i < |dues| ==> r[i] == dues[i].pipeline
  {
    seq(|dues|, i requires 0 <= i < |dues| => dues[i].pipeline)
  }

  /** The runs that the first n visits leave; the first that throws is the last one. */
  function Made(config: SF.Config, dues: seq<SF.Due>, answers: nat -> Answer, visits: seq<Visit>, n: nat): seq<SF.Run>
    requires n <= |dues| == |visits|
  {
    if n == 0 then []
    else
      Made(config, dues, answers, visits, n - 1) +
      if Scheduler.Reached(visits, n - 1) then RunsMade(config, dues[n - 1], answers(n - 1), visits[n - 1]) else []
  }

  function PipelinesOf(runs: seq<SF.Run>): (r: seq<string>)
    ensures |r| == |runs| && forall i :: 0 <= i < |runs| ==> r[i] == runs[i].pipeline
  {
    seq(|runs|, i requires 0 <= i < |runs| => runs[i].pipeline)
  }

  lemma PipelinesBoth(a: seq<SF.Run>, b: seq<SF.Run>)
    ensures PipelinesOf(a + b) == PipelinesOf(a) + PipelinesOf(b)
  {
  }

  /** They are runs of the pipelines for which the poll of the service starts one, in that order. */
  lemma {:induction false} MadeIsStarted(config: SF.Config, rows: Scheduler.Rows, dues: seq<SF.Due>,
                                         answers: nat -> Answer, visits: seq<Visit>, n: nat)
    requires n <= |dues| == |visits|
    ensures PipelinesOf(Made(config, dues, answers, visits, n)) == Scheduler.PollOf(rows, Ids(dues), visits, n).started
  {
    if n == 0 {
      assert PipelinesOf([]) == [];
    } else {
      var before := Made(config, dues, answers, visits, n - 1);
      var more := RunsMade(config, dues[n - 1], answers(n - 1), visits[n - 1]);
      MadeIsStarted(config, rows, dues, answers, visits, n - 1);
      Scheduler.ReachedMeaning(rows, Ids(dues), visits, n - 1);
      PipelinesBoth(before, more);
      assert PipelinesOf(more) == Scheduler.StartedBy(Ids(dues)[n - 1], visits[n - 1]);
      assert before + [] == before;
    }
  }

  lemma {:induction false} MadeAmong(config: SF.Config, dues: seq<SF.Due>, answers: nat -> Answer, visits: seq<Visit>,
                                     n: nat)
    requires n <= |dues| == |visits|
    ensures forall run :: run in Made(config, dues, answers, visits, n) ==> run.pipeline in Ids(dues)[..n]
  {
    if n == 0 {
    } else {
      MadeAmong(config, dues, answers, visits, n - 1);
      assert Ids(dues)[..n] == Ids(dues)[..n - 1] + [Ids(dues)[n - 1]];
    }
  }

  lemma OthersDoNotCount(runs: seq<SF.Run>, more: seq<SF.Run>, p: string)
    requires forall run :: run in more ==> run.pipeline != p
    ensures SF.HasActiveRun(runs + more, p) == SF.HasActiveRun(runs, p)
  {
    if SF.HasActiveRun(runs, p) {
      var r :| 0 <= r < |runs| && runs[r].pipeline == p && SF.IsActive(runs[r]);
      assert (runs + more)[r] == runs[r];
    }
  }

  /** Answers come from the runs there were when the cycle stood at the head of its list. */
  ghost predicate AllForeseen(runs: seq<SF.Run>, dues: seq<SF.Due>, answers: nat -> Answer, visits: seq<Visit>)
    requires |dues| == |visits|
  {
    forall i :: 0 <= i < |dues| ==> Foresees(runs, dues[i], answers(i), visits[i])
  }

  /** The state when n visits of a cycle that started from s are over. */
  function Following(config: SF.Config, s: SF.State, dues: seq<SF.Due>, answers: nat -> Answer, visits: seq<Visit>,
                     n: nat): SF.State
    requires n <= |dues| == |visits|
  {
    s.(runs := s.runs + Made(config, dues, answers, visits, n),
       cycles := [if Scheduler.Reached(visits, n) then SF.AtHead(dues[n..]) else SF.Failing])
  }

  lemma {:induction false} CycleFollows(config: SF.Config, h: SF.History, dues: seq<SF.Due>, answers: nat -> Answer,
                                        visits: seq<Visit>, n: nat)
    returns (moves: seq<SF.Move>)
    requires At(SF.StateOf(config, h), SF.StateOf(config, h).runs, SF.AtHead(dues))
    requires Scheduler.Distinct(Ids(dues)) && n <= |dues| == |visits|
    requires AllForeseen(SF.StateOf(config, h).runs, dues, answers, visits)
    ensures SF.StateOf(config, Moving(h, moves)) ==
            Following(config, SF.StateOf(config, h), dues, answers, visits, n)
  {
    if n == 0 {
      moves := [];
      NothingFollows(config, SF.StateOf(config, h), dues, answers, visits);
    } else {
      moves := CycleFollows(config, h, dues, answers, visits, n - 1);
      if Scheduler.Reached(visits, n - 1) {
        var more := CycleContinues(config, SF.StateOf(config, h), Moving(h, moves), dues, answers, visits, n);
        MovingOn(h, moves, more);
        moves := moves + more;
      } else {
        NothingMore(config, SF.StateOf(config, h), dues, answers, visits, n);
      }
    }
  }

  lemma NothingFollows(config: SF.Config, s: SF.State, dues: seq<SF.Due>, answers: nat -> Answer, visits: seq<Visit>)
    requires |dues| == |visits| && At(s, s.runs, SF.AtHead(dues))
    ensures Following(config, s, dues, answers, visits, 0) == s
  {
    assert s.runs + [] == s.runs && dues[0..] == dues;
  }

  lemma NothingMore(config: SF.Config, s: SF.State, dues: seq<SF.Due>, answers: nat -> Answer, visits: seq<Visit>,
                    n: nat)
    requires 0 < n <= |dues| == |visits| && !Scheduler.Reached(visits, n - 1)
    ensures Following(config, s, dues, answers, visits, n) == Following(config, s, dues, answers, visits, n - 1)
  {
    NoMoreMade(config, dues, answers, visits, n);
  }

  lemma CycleContinues(config: SF.Config, s: SF.State, h: SF.History, dues: seq<SF.Due>, answers: nat -> Answer,
                       visits: seq<Visit>, n: nat)
    returns (more: seq<SF.Move>)
    requires Scheduler.Distinct(Ids(dues)) && 0 < n <= |dues| == |visits|
    requires AllForeseen(s.runs, dues, answers, visits) && Scheduler.Reached(visits, n - 1)
    requires SF.StateOf(config, h) == Following(config, s, dues, answers, visits, n - 1)
    ensures SF.StateOf(config, Moving(h, more)) == Following(config, s, dues, answers, visits, n)
  {
    var made := Made(config, dues, answers, visits, n - 1);
    MadeAmong(config, dues, answers, visits, n - 1);
    more := CycleFollowsOn(config, h, s.runs, made, dues, answers(n - 1), visits, n);
    AppendTwice(s.runs, made, RunsMade(config, dues[n - 1], answers(n - 1), visits[n - 1]));
  }

  lemma NoMoreMade(config: SF.Config, dues: seq<SF.Due>, answers: nat -> Answer, visits: seq<Visit>, n: nat)
    requires 0 < n <= |dues| == |visits| && !Scheduler.Reached(visits, n - 1)
    ensures Made(config, dues, answers, visits, n) == Made(config, dues, answers, visits, n - 1)
  {
    var made := Made(config, dues, answers, visits, n - 1);
    assert made + [] == made;
  }

  /** One visit further down the list, beside the runs that the earlier ones made. */
  lemma CycleFollowsOn(config: SF.Config, h: SF.History, runs: seq<SF.Run>, made: seq<SF.Run>, dues: seq<SF.Due>,
                       answer: Answer, visits: seq<Visit>, n: nat)
    returns (more: seq<SF.Move>)
    requires 0 < n <= |dues| == |visits| && Scheduler.Distinct(Ids(dues)) && Scheduler.Reached(visits, n - 1)
    requires At(SF.StateOf(config, h), runs + made, SF.AtHead(dues[n - 1..]))
    requires forall run :: run in made ==> run.pipeline in Ids(dues)[..n - 1]
    requires Foresees(runs, dues[n - 1], answer, visits[n - 1])
    ensures SF.StateOf(config, Moving(h, more)) ==
            SF.StateOf(config, h).(runs := runs + made + RunsMade(config, dues[n - 1], answer, visits[n - 1]),
                                   cycles := [if Scheduler.Reached(visits, n) then SF.AtHead(dues[n..])
                                              else SF.Failing])
  {
    NotAmong(dues, n - 1);
    OthersDoNotCount(runs, made, dues[n - 1].pipeline);
    assert dues[n - 1..][1..] == dues[n..];
    more := CycleVisits(config, h, dues[n - 1..], answer, visits[n - 1]);
  }

  lemma NotAmong(dues: seq<SF.Due>, k: nat)
    requires Scheduler.Distinct(Ids(dues)) && k < |dues|
    ensures dues[k].pipeline !in Ids(dues)[..k]
  {
  }

  lemma AppendTwice(a: seq<SF.Run>, b: seq<SF.Run>, c: seq<SF.Run>)
    ensures a + b + c == a + (b + c)
  {
  }

  // ----- the service -----

  /** The due list of the step system that the service's rows stand for. */
  ghost function DuesOf(zones: Scheduler.Zones, rows: Scheduler.Rows, due: seq<string>, now: int): (r: seq<SF.Due>)
    requires Scheduler.AllKnown(rows, due)
    ensures |r| == |due|
    ensures forall i :: 0 <= i < |r| ==> r[i].pipeline == due[i]
  {
    seq(|due|, i requires 0 <= i < |due| => SF.Due(due[i], Scheduler.ScheduleOf(zones, rows[due[i]], now).Some?))
  }

  lemma VisitForeseen(zones: Scheduler.Zones, rows: Scheduler.Rows, due: seq<string>, now: int, answers: nat -> Answer,
                      runs: seq<SF.Run>, i: nat)
    requires Scheduler.AllKnown(rows, due) && i < |due| && answers(i).active == SF.HasActiveRun(runs, due[i])
    ensures Foresees(runs, DuesOf(zones, rows, due, now)[i], answers(i),
                     Scheduler.VisitsOf(zones, rows, due, now, answers)[i])
  {
  }

  /** The runs are queued if the queue is asynchronous, and have ended otherwise; if something threw, the last
      one may be running still. */
  predicate LeftRight(config: SF.Config, made: seq<SF.Run>, threw: bool) {
    forall k :: 0 <= k < |made| ==>
      made[k].status == (if config.async then RunQueued else Success) ||
      (made[k].status == Running && k == |made| - 1 && threw)
  }

  /** A poll of the service that is told the active runs as they were at its start, and an undisturbed cycle of
      the step system over the same due list, with calls that throw at the same places: they create runs of the
      same pipelines in the same order, and one throws iff the other does. With an asynchronous queue the runs
      are queued, otherwise they have ended, but for one that threw. */
  lemma ServiceMatchesSteps(config: SF.Config, h: SF.History, zones: Scheduler.Zones, rows: Scheduler.Rows,
                            due: seq<string>, now: int, answers: nat -> Answer)
    returns (moves: seq<SF.Move>, made: seq<SF.Run>)
    requires Scheduler.DueList(rows, now, due)
    requires At(SF.StateOf(config, h), SF.StateOf(config, h).runs, SF.AtHead(DuesOf(zones, rows, due, now)))
    requires forall i :: 0 <= i < |due| ==>
               answers(i).active == SF.HasActiveRun(SF.StateOf(config, h).runs, due[i])
    ensures var s := SF.StateOf(config, h);
            var p := Scheduler.PollOf(rows, due, Scheduler.VisitsOf(zones, rows, due, now, answers), |due|);
            && SF.StateOf(config, Moving(h, moves)) ==
               s.(runs := s.runs + made, cycles := [if p.threw then SF.Failing else SF.AtHead([])])
            && PipelinesOf(made) == p.started
            && LeftRight(config, made, p.threw)
  {
    var dues, visits := DuesOf(zones, rows, due, now), Scheduler.VisitsOf(zones, rows, due, now, answers);
    var runs := SF.StateOf(config, h).runs;
    forall i | 0 <= i < |due| ensures Foresees(runs, dues[i], answers(i), visits[i]) {
      VisitForeseen(zones, rows, due, now, answers, runs, i);
    }
    assert Ids(dues) == due;
    moves := CycleFollows(config, h, dues, answers, visits, |due|);
    made := Made(config, dues, answers, visits, |due|);
    assert dues[|due|..] == [];
    MadeIsStarted(config, rows, dues, answers, visits, |due|);
    Scheduler.ReachedMeaning(rows, due, visits, |due|);
    StatusesMade(config, runs, dues, answers, visits, |due|);
  }

  lemma {:induction false} StatusesMade(config: SF.Config, runs: seq<SF.Run>, dues: seq<SF.Due>, answers: nat -> Answer,
                                        visits: seq<Visit>, n: nat)
    requires n <= |dues| == |visits| && AllForeseen(runs, dues, answers, visits)
    ensures LeftRight(config, Made(config, dues, answers, visits, n), !Scheduler.Reached(visits, n))
  {
    if n == 0 {
    } else {
      var before := Made(config, dues, answers, visits, n - 1);
      StatusesMade(config, runs, dues, answers, visits, n - 1);
      assert Foresees(runs, dues[n - 1], answers(n - 1), visits[n - 1]);
      assert Scheduler.Reached(visits, n) <==>
             Scheduler.Reached(visits, n - 1) && visits[n - 1].verdict != Scheduler.Threw;
      if Scheduler.Reached(visits, n - 1) {
        OneMoreRight(config, before, dues[n - 1], answers(n - 1), visits[n - 1]);
      } else {
        assert before + [] == before;
      }
    }
  }

  lemma OneMoreRight(config: SF.Config, before: seq<SF.Run>, due: SF.Due, answer: Answer, visit: Visit)
    requires LeftRight(config, before, false) && IsVisit(due.valid, answer, visit)
    ensures LeftRight(config, before + RunsMade(config, due, answer, visit), visit.verdict == Scheduler.Threw)
  {
  }
}
