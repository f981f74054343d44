/**
 The scheduler: saving a schedule, and polling for the pipelines that are due. Time zones are a table from
 names to fixed offsets; the store's answers and failures during a poll are parameters.
 */
module Scheduler {
  import opened Common
  import opened Text
  import opened CronFields
  import opened CronExpressions
  import opened CronSearch

  datatype PipelineStatus = Active | Paused | Archived

  datatype Row = Row(status: PipelineStatus, scheduleEnabled: bool, scheduleCron: Option<string>,
                     scheduleTimezone: Option<string>, nextRunAt: Option<int>, incrementalMode: bool)

  type Zones = string -> Option<int>

  // ----- saving a schedule -----

  datatype Change = Change(scheduleEnabled: Option<bool>, scheduleCron: Option<string>,
                           scheduleTimezone: Option<string>, incrementalMode: Option<bool>)

  datatype ScheduleError =
    | PipelineNotFound | ArchivedPipeline | CronRequired | InvalidCron(error: CronError) | UnknownTimezone
    | SaveFailed

  /** Which store call throws: the update of the row, the audit of every update, or the one that follows when
      the schedule is switched on or off. */
  datatype SaveFault = NoSaveFault | UpdateThrows | FirstAuditThrows | SecondAuditThrows

  predicate SaveThrows(fault: SaveFault, row: Row, saved: Row) {
    fault == UpdateThrows || fault == FirstAuditThrows ||
    (fault == SecondAuditThrows && row.scheduleEnabled != saved.scheduleEnabled)
  }

  function OrElse<T>(first: Option<T>, second: Option<T>): Option<T> {
    if first.Some? then first else second
  }

  function WantedCron(change: Change, row: Row): string {
    Trim(OrElse(change.scheduleCron, row.scheduleCron).GetOr(""))
  }

  function WantedZone(change: Change, row: Row): string {
    Trim(OrElse(change.scheduleTimezone, row.scheduleTimezone).GetOr("UTC"))
  }

  ghost predicate Refused(zones: Zones, change: Change, row: Row, error: ScheduleError) {
    && change.scheduleEnabled.GetOr(row.scheduleEnabled)
    && match error
       case ArchivedPipeline => row.status == Archived
       case CronRequired => row.status != Archived && WantedCron(change, row) == ""
       case InvalidCron(e) =>
         row.status != Archived && WantedCron(change, row) != "" && CronOf(WantedCron(change, row)) == Err(e)
       case UnknownTimezone =>
         row.status != Archived && WantedCron(change, row) != "" && CronOf(WantedCron(change, row)).Ok? &&
         zones(WantedZone(change, row)).None?
       case _ => false
  }

  /** What a successful update leaves in the row. */
  ghost predicate Saved(zones: Zones, change: Change, row: Row, now: int, saved: Row) {
    var enabled := change.scheduleEnabled.GetOr(row.scheduleEnabled);
    && saved.status == row.status && saved.scheduleEnabled == enabled
    && saved.incrementalMode == change.incrementalMode.GetOr(row.incrementalMode)
    && (!enabled ==> saved.scheduleCron == row.scheduleCron && saved.nextRunAt == None &&
                     saved.scheduleTimezone == Some(row.scheduleTimezone.GetOr("UTC")))
    && (enabled ==>
          && row.status != Archived && WantedCron(change, row) != ""
          && saved.scheduleCron == Some(WantedCron(change, row))
          && saved.scheduleTimezone == Some(WantedZone(change, row))
          && CronOf(WantedCron(change, row)).Ok? && zones(WantedZone(change, row)).Some?
          && saved.nextRunAt ==
             if row.status != Active then None
             else NextRun(CronOf(WantedCron(change, row)).value, zones(WantedZone(change, row)).value, now))
  }

  // ----- what the poller makes of a row -----

  predicate IsDue(row: Row, now: int) {
    && row.status == Active && row.scheduleEnabled && row.scheduleCron.Some?
    && row.nextRunAt.Some? && row.nextRunAt.value <= now
  }

  function RowCron(row: Row): string {
    Trim(row.scheduleCron.GetOr(""))
  }

  function RowZone(row: Row): string {
    var zone := Trim(row.scheduleTimezone.GetOr("UTC"));
    if zone == "" then "UTC" else zone
  }

  /** The next run after `now`, or None if the row's configuration is not valid. */
  ghost function ScheduleOf(zones: Zones, row: Row, now: int): Option<Option<int>> {
    if RowCron(row) == "" || zones(RowZone(row)).None? || CronOf(RowCron(row)).Err? then None
    else Some(NextRun(CronOf(RowCron(row)).value, zones(RowZone(row)).value, now))
  }

  /** Which awaited call throws during one visit: the check for active runs, the creation of the run (before
      or after its row exists), the update of `nextRunAt`, or the audit at the end of any branch. */
  datatype Fault = NoFault | CheckThrows | RunThrows(created: bool) | AdvanceThrows | AuditThrows

  /** The store's answer to `hasActiveRun`, and the call that throws. */
  datatype Answer = Answer(active: bool, fault: Fault)

  datatype Verdict = Enqueued | Skipped | Threw

  /** One pass of the loop: is a run created, what does `nextRunAt` become, and how does the pass end. */
  datatype Visit = Visit(started: bool, next: Option<Option<int>>, verdict: Verdict)

  function VisitOf(schedule: Option<Option<int>>, answer: Answer): Visit {
    if schedule.None? then Visit(false, None, if answer.fault == AuditThrows then Threw else Skipped)
    else if answer.fault == CheckThrows then Visit(false, None, Threw)
    else if answer.active then Visit(false, None, if answer.fault == AuditThrows then Threw else Skipped)
    else match answer.fault
      case RunThrows(created) => Visit(created, None, Threw)
      case AdvanceThrows => Visit(true, None, Threw)
      case AuditThrows => Visit(true, schedule, Threw)
      case _ => Visit(true, schedule, Enqueued)
  }

  type Rows = map<string, Row>

  datatype Poll = Poll(rows: Rows, started: seq<string>, enqueued: nat, skipped: nat, threw: bool)

  function RowAfter(row: Row, visit: Visit): Row {
    if visit.next.Some? then row.(nextRunAt := visit.next.value) else row
  }

  function RowsAfter(rows: Rows, id: string, visit: Visit): Rows {
    if id in rows && visit.next.Some? then rows[id := RowAfter(rows[id], visit)] else rows
  }

  function StartedBy(id: string, visit: Visit): seq<string> {
    if visit.started then [id] else []
  }

  function Visited(p: Poll, id: string, visit: Visit): Poll {
    Poll(RowsAfter(p.rows, id, visit), p.started + StartedBy(id, visit),
         p.enqueued + (if visit.verdict == Enqueued then 1 else 0),
         p.skipped + (if visit.verdict == Skipped then 1 else 0),
         visit.verdict == Threw)
  }

  predicate AllKnown(rows: Rows, due: seq<string>) {
    forall i :: 0 <= i < |due| ==> due[i] in rows
  }

  /** The poll after the first n due pipelines; a throw ends it. */
  function PollOf(rows: Rows, due: seq<string>, visits: seq<Visit>, n: nat): Poll
    requires n <= |due| == |visits|
  {
    if n == 0 then Poll(rows, [], 0, 0, false)
    else
      var p := PollOf(rows, due, visits, n - 1);
      if p.threw then p else Visited(p, due[n - 1], visits[n - 1])
  }

  /** The visits of a poll, each from the row as the poll found it. */
  ghost function VisitsOf(zones: Zones, rows: Rows, due: seq<string>, now: int, answers: nat -> Answer): (r: seq<Visit>)
    requires AllKnown(rows, due)
    ensures |r| == |due|
  {
    seq(|due|, i requires 0 <= i < |due| => VisitOf(ScheduleOf(zones, rows[due[i]], now), answers(i)))
  }

  lemma VisitsAt(zones: Zones, rows: Rows, due: seq<string>, now: int, answers: nat -> Answer, i: nat)
    requires AllKnown(rows, due) && i < |due|
    ensures VisitsOf(zones, rows, due, now, answers)[i] == VisitOf(ScheduleOf(zones, rows[due[i]], now), answers(i))
  {
  }

  predicate Distinct(ids: seq<string>) {
    forall i, j :: 0 <= i < j < |ids| ==> ids[i] != ids[j]
  }

  /** The due pipelines, each once, the earliest first. */
  ghost predicate DueList(rows: Rows, now: int, due: seq<string>) {
    && AllKnown(rows, due) && Distinct(due)
    && (forall id :: id in due <==> id in rows && IsDue(rows[id], now))
    && (forall i, j :: 0 <= i < j < |due| && rows[due[i]].nextRunAt.Some? && rows[due[j]].nextRunAt.Some? ==>
          rows[due[i]].nextRunAt.value <= rows[due[j]].nextRunAt.value)
  }

  datatype PollSummary = PollSummary(duePipelines: nat, enqueued: nat, skipped: nat)

  datatype StoreError = StoreUnavailable

  class ScheduleStore {
    var rows: Rows
    /** The pipelines for which a scheduled run was created, in order. */
    var started: seq<string>

    constructor (rows: Rows)
      ensures this.rows == rows && started == []
    {
      this.rows, this.started := rows, [];
    }

    method SetNextRunAt(id: string, nextRunAt: Option<int>)
      modifies this`rows
      ensures rows == if id in old(rows) then old(rows)[id := old(rows)[id].(nextRunAt := nextRunAt)] else old(rows)
    {
      if id in rows {
        rows := rows[id := rows[id].(nextRunAt := nextRunAt)];
      }
    }
  }

  /** What fails outside the loop of a cycle. */
  datatype CycleFault = CycleCalm | StartAuditThrows | FindThrows | EndAuditThrows

  /** What a poll meets: the store's due list, its answers, and the calls that throw. */
  datatype Meets = Meets(due: seq<string>, answers: nat -> Answer, fault: CycleFault, catchAuditThrows: bool)

  class SchedulerService {
    const store: ScheduleStore
    const zones: Zones
    /** Polling is enabled, the process is a worker, and not a test environment. */
    const polls: bool
    const lockTtlMs: nat
    var pollInProgress: bool
    var lockUntil: int
    var lastSummary: PollSummary
    var lastFailed: bool

    constructor (store: ScheduleStore, zones: Zones, polls: bool, lockTtlMs: nat)
      ensures this.store == store && this.zones == zones && this.polls == polls && this.lockTtlMs == lockTtlMs
      ensures Unlocked() && lastSummary == PollSummary(0, 0, 0) && !lastFailed
    {
      this.store, this.zones, this.polls, this.lockTtlMs := store, zones, polls, lockTtlMs;
      pollInProgress, lockUntil, lastSummary, lastFailed := false, 0, PollSummary(0, 0, 0), false;
    }

    predicate Unlocked()
      reads this
    {
      !pollInProgress && lockUntil == 0
    }

    method UpdatePipelineSchedule(id: string, change: Change, now: int, fault: SaveFault)
      returns (r: Result<Row, ScheduleError>)
      modifies store`rows
      ensures id !in old(store.rows) ==> r == Err(PipelineNotFound) && store.rows == old(store.rows)
      ensures id in old(store.rows) && r.Err? && r.error != SaveFailed ==>
                Refused(zones, change, old(store.rows)[id], r.error) && store.rows == old(store.rows)
      ensures id in old(store.rows) ==> forall e :: Refused(zones, change, old(store.rows)[id], e) ==> r == Err(e)
      ensures r == Err(SaveFailed) && fault == UpdateThrows ==> store.rows == old(store.rows)
      ensures r == Err(SaveFailed) ==> id in store.rows && id in old(store.rows) && fault != NoSaveFault
      ensures r.Ok? || (r == Err(SaveFailed) && fault != UpdateThrows) ==>
                && id in old(store.rows) && id in store.rows
                && store.rows == old(store.rows)[id := store.rows[id]]
                && Saved(zones, change, old(store.rows)[id], now, store.rows[id])
                && (r.Ok? <==>
                      (fault == SecondAuditThrows ==>
                         store.rows[id].scheduleEnabled == old(store.rows)[id].scheduleEnabled)
                      && fault != UpdateThrows && fault != FirstAuditThrows)
                && (r.Ok? ==> r.value == store.rows[id])
    {
      if id !in store.rows {
        return Err(PipelineNotFound);
      }
      var row := store.rows[id];
      var enabled := change.scheduleEnabled.GetOr(row.scheduleEnabled);
      var cron, zone := WantedCron(change, row), WantedZone(change, row);
      var nextRunAt: Option<int> := None;
      if row.status == Archived && enabled {
        return Err(ArchivedPipeline);
      }
      if enabled && cron == "" {
        return Err(CronRequired);
      }
      if enabled {
        var parsed := ParseCronExpression(cron);
        if parsed.Err? {
          return Err(InvalidCron(parsed.error));
        }
        if zones(zone).None? {
          return Err(UnknownTimezone);
        }
      }
      if enabled && row.status == Active {
        var computed := ComputeNextRunAt(cron, zones(zone), now);
        nextRunAt := computed.value;
      }
      var saved := row.(scheduleEnabled := enabled,
                        scheduleCron := if enabled then Some(cron) else row.scheduleCron,
                        scheduleTimezone := Some(if enabled then zone else row.scheduleTimezone.GetOr("UTC")),
                        nextRunAt := nextRunAt,
                        incrementalMode := change.incrementalMode.GetOr(row.incrementalMode));
      if fault == UpdateThrows {
        return Err(SaveFailed);
      }
      store.rows := store.rows[id := saved];
      return if SaveThrows(fault, row, saved) then Err(SaveFailed) else Ok(saved);
    }

    method HasValidSchedule(row: Row, ghost now: int) returns (valid: bool)
      ensures valid == ScheduleOf(zones, row, now).Some?
    {
      if RowCron(row) == "" || zones(RowZone(row)).None? {
        return false;
      }
      var parsed := ParseCronExpression(RowCron(row));
      return parsed.Ok?;
    }

    /** The search cannot throw once the schedule is known to be valid. */
    method NextRunAtOf(row: Row, now: int) returns (nextRunAt: Option<int>)
      requires ScheduleOf(zones, row, now).Some?
      ensures ScheduleOf(zones, row, now) == Some(nextRunAt)
    {
      var computed := ComputeNextRunAt(RowCron(row), zones(RowZone(row)), now);
      nextRunAt := computed.value;
    }

    /** One pass of the loop over the due pipelines; `row` is the row as the poll found it. */
    method VisitPipeline(id: string, row: Row, now: int, answer: Answer, ghost visit: Visit) returns (verdict: Verdict)
      requires visit == VisitOf(ScheduleOf(zones, row, now), answer)
      modifies store
      ensures store.rows == RowsAfter(old(store.rows), id, visit)
      ensures store.started == old(store.started) + StartedBy(id, visit)
      ensures verdict == visit.verdict
    {
      var valid := HasValidSchedule(row, now);
      if !valid {
        return if answer.fault == AuditThrows then Threw else Skipped;
      }
      if answer.fault == CheckThrows {
        return Threw;
      }
      if answer.active {
        return if answer.fault == AuditThrows then Threw else Skipped;
      }
      if !answer.fault.RunThrows? || answer.fault.created {
        store.started := store.started + [id];
      }
      if answer.fault.RunThrows? {
        return Threw;
      }
      var nextRunAt := NextRunAtOf(row, now);
      if answer.fault == AdvanceThrows {
        return Threw;
      }
      store.SetNextRunAt(id, nextRunAt);
      return if answer.fault == AuditThrows then Threw else Enqueued;
    }

    method EnqueueDuePipelines(due: seq<string>, now: int, answers: nat -> Answer)
      returns (r: Result<PollSummary, StoreError>)
      requires DueList(store.rows, now, due)
      modifies store
      ensures var p := PollOf(old(store.rows), due, VisitsOf(zones, old(store.rows), due, now, answers), |due|);
              && store.rows == p.rows && store.started == old(store.started) + p.started
              && r == if p.threw then Err(StoreUnavailable) else Ok(PollSummary(|due|, p.enqueued, p.skipped))
    {
      ghost var visits := VisitsOf(zones, store.rows, due, now, answers);
      r := VisitAll(due, now, answers, visits);
    }

    /** The loop. */
    method VisitAll(due: seq<string>, now: int, answers: nat -> Answer, ghost visits: seq<Visit>)
      returns (r: Result<PollSummary, StoreError>)
      requires AllKnown(store.rows, due) && visits == VisitsOf(zones, store.rows, due, now, answers)
      modifies store
      ensures var p := PollOf(old(store.rows), due, visits, |due|);
              && store.rows == p.rows && store.started == old(store.started) + p.started
              && r == if p.threw then Err(StoreUnavailable) else Ok(PollSummary(|due|, p.enqueued, p.skipped))
    {
      var found := store.rows;
      ghost var start := store.started;
      var enqueued, skipped, threw, i := 0, 0, false, 0;
      while i < |due| && !threw
        invariant i <= |due|
        invariant HasPolled(start, PollOf(found, due, visits, i), enqueued, skipped)
        invariant PollOf(found, due, visits, i).threw == threw
      {
        threw, enqueued, skipped := VisitNext(found, due, i, now, answers, enqueued, skipped, start, visits);
        i := i + 1;
      }
      if threw {
        ThrownStays(found, due, visits, i, |due|);
        return Err(StoreUnavailable);
      }
      return Ok(PollSummary(|due|, enqueued, skipped));
    }

    ghost predicate HasPolled(start: seq<string>, p: Poll, enqueued: nat, skipped: nat)
      reads store
    {
      store.rows == p.rows && store.started == start + p.started && enqueued == p.enqueued && skipped == p.skipped
    }

    /** The body of the loop. */
    method VisitNext(found: Rows, due: seq<string>, i: nat, now: int, answers: nat -> Answer, enqueued: nat,
                     skipped: nat, ghost start: seq<string>, ghost visits: seq<Visit>)
      returns (threw: bool, enqueuedNow: nat, skippedNow: nat)
      requires AllKnown(found, due) && i < |due| && visits == VisitsOf(zones, found, due, now, answers)
      requires HasPolled(start, PollOf(found, due, visits, i), enqueued, skipped)
      requires !PollOf(found, due, visits, i).threw
      modifies store
      ensures HasPolled(start, PollOf(found, due, visits, i + 1), enqueuedNow, skippedNow)
      ensures threw == PollOf(found, due, visits, i + 1).threw
    {
      ghost var p := PollOf(found, due, visits, i);
      VisitsAt(zones, found, due, now, answers, i);
      var verdict := VisitPipeline(due[i], found[due[i]], now, answers(i), visits[i]);
      assert start + p.started + StartedBy(due[i], visits[i]) == start + (p.started + StartedBy(due[i], visits[i]));
      threw := verdict == Threw;
      enqueuedNow := enqueued + if verdict == Enqueued then 1 else 0;
      skippedNow := skipped + if verdict == Skipped then 1 else 0;
    }

    /** `runPollingCycle`: under the lock, and released however it ends. */
    method RunPollingCycle(now: int, meets: Meets) returns (ran: bool, threw: bool)
      requires DueList(store.rows, now, meets.due)
      modifies this, store
      ensures ran == (polls && !old(pollInProgress) && now >= old(lockUntil))
      ensures !ran ==> !threw && unchanged(this) && unchanged(store)
      ensures ran ==>
                var p := PollOf(old(store.rows), meets.due,
                                VisitsOf(zones, old(store.rows), meets.due, now, meets.answers), |meets.due|);
                var reached := meets.fault != StartAuditThrows && meets.fault != FindThrows;
                var counted := reached && !p.threw;
                && Unlocked()
                && store.rows == (if reached then p.rows else old(store.rows))
                && store.started == old(store.started) + (if reached then p.started else [])
                && lastSummary ==
                   (if counted then PollSummary(|meets.due|, p.enqueued, p.skipped) else old(lastSummary))
                && lastFailed == !(counted && meets.fault == CycleCalm)
                && threw == (lastFailed && meets.catchAuditThrows)
    {
      if !polls || pollInProgress || now < lockUntil {
        return false, false;
      }
      ran, pollInProgress, lockUntil := true, true, now + lockTtlMs;
      var failed := meets.fault == StartAuditThrows || meets.fault == FindThrows;
      if !failed {
        var summary := EnqueueDuePipelines(meets.due, now, meets.answers);
        failed := summary.Err?;
        if !failed {
          lastSummary, lastFailed := summary.value, false;
          failed := meets.fault == EndAuditThrows;
        }
      }
      if failed {
        lastFailed := true;
      }
      threw := failed && meets.catchAuditThrows;
      pollInProgress, lockUntil := false, 0;
    }
  }

  lemma {:induction false} ThrownStays(rows: Rows, due: seq<string>, visits: seq<Visit>, k: nat, n: nat)
    requires k <= n <= |due| == |visits| && PollOf(rows, due, visits, k).threw
    ensures PollOf(rows, due, visits, n) == PollOf(rows, due, visits, k)
  {
    if k == n {
    } else {
      ThrownStays(rows, due, visits, k, n - 1);
    }
  }

  // ----- one poll -----

  /** What a visit promises: it counts as enqueued iff it started a run, unless it throws. */
  predicate CountsRight(visit: Visit) {
    visit.verdict != Threw ==> visit.started == visit.verdict.Enqueued?
  }

  lemma {:induction false} PollCounts(rows: Rows, due: seq<string>, visits: seq<Visit>, n: nat)
    requires n <= |due| == |visits| && forall i :: 0 <= i < n ==> CountsRight(visits[i])
    ensures var p := PollOf(rows, due, visits, n);
            && p.enqueued <= |p.started| <= p.enqueued + (if p.threw then 1 else 0)
            && (p.threw ==> p.enqueued + p.skipped < n) && (!p.threw ==> p.enqueued + p.skipped == n)
            && forall id :: id in p.started ==> id in due[..n]
  {
    if n == 0 {
    } else {
      PollCounts(rows, due, visits, n - 1);
      assert due[..n] == due[..n - 1] + [due[n - 1]];
    }
  }

  /** A poll that returns has enqueued or skipped every due pipeline, and created one run for each that it
      enqueued; a poll that throws has created at most one run that it did not count. */
  lemma PollConserves(zones: Zones, rows: Rows, due: seq<string>, now: int, answers: nat -> Answer)
    requires AllKnown(rows, due)
    ensures var p := PollOf(rows, due, VisitsOf(zones, rows, due, now, answers), |due|);
            && p.enqueued <= |p.started| <= p.enqueued + (if p.threw then 1 else 0)
            && (p.threw ==> p.enqueued + p.skipped < |due|) && (!p.threw ==> p.enqueued + p.skipped == |due|)
            && forall id :: id in p.started ==> id in due
  {
    var visits := VisitsOf(zones, rows, due, now, answers);
    forall i | 0 <= i < |due| ensures CountsRight(visits[i]) {
      VisitsAt(zones, rows, due, now, answers, i);
      VisitCountsRight(ScheduleOf(zones, rows[due[i]], now), answers(i));
    }
    PollCounts(rows, due, visits, |due|);
    assert due[..|due|] == due;
  }

  lemma VisitCountsRight(schedule: Option<Option<int>>, answer: Answer)
    ensures CountsRight(VisitOf(schedule, answer))
  {
  }

  /** No visit before the i-th throws, so the poll reaches it. */
  predicate Reached(visits: seq<Visit>, i: nat)
    requires i <= |visits|
  {
    forall j :: 0 <= j < i ==> visits[j].verdict != Threw
  }

  lemma {:induction false} ReachedMeaning(rows: Rows, due: seq<string>, visits: seq<Visit>, n: nat)
    requires n <= |due| == |visits|
    ensures PollOf(rows, due, visits, n).threw <==> !Reached(visits, n)
  {
    if n == 0 {
    } else {
      ReachedMeaning(rows, due, visits, n - 1);
    }
  }

  lemma {:induction false} OthersUntouched(rows: Rows, due: seq<string>, visits: seq<Visit>, n: nat, id: string)
    requires n <= |due| == |visits| && id in rows && id !in due[..n]
    ensures id in PollOf(rows, due, visits, n).rows && PollOf(rows, due, visits, n).rows[id] == rows[id]
  {
    if n == 0 {
    } else {
      assert due[..n] == due[..n - 1] + [due[n - 1]];
      OthersUntouched(rows, due, visits, n - 1, id);
    }
  }

  lemma {:induction false} OwnVisit(rows: Rows, due: seq<string>, visits: seq<Visit>, n: nat, i: nat)
    requires Distinct(due) && i < n <= |due| == |visits| && due[i] in rows
    ensures due[i] in PollOf(rows, due, visits, n).rows
    ensures PollOf(rows, due, visits, n).rows[due[i]] ==
            if Reached(visits, i) then RowAfter(rows[due[i]], visits[i]) else rows[due[i]]
  {
    if i < n - 1 {
      OwnVisit(rows, due, visits, n - 1, i);
    } else {
      OthersUntouched(rows, due, visits, i, due[i]);
      ReachedMeaning(rows, due, visits, i);
    }
  }

  function Times(ids: seq<string>, id: string): nat {
    multiset(ids)[id]
  }

  /** How many of the first n visits start a run of a pipeline. */
  function StartsIn(due: seq<string>, visits: seq<Visit>, n: nat, id: string): nat
    requires n <= |due| == |visits|
  {
    if n == 0 then 0
    else StartsIn(due, visits, n - 1, id) +
         if Reached(visits, n - 1) && visits[n - 1].started && due[n - 1] == id then 1 else 0
  }

  /** The pipelines for which the first n visits start a run. */
  function StartedIn(due: seq<string>, visits: seq<Visit>, n: nat): seq<string>
    requires n <= |due| == |visits|
  {
    if n == 0 then []
    else if Reached(visits, n - 1) && visits[n - 1].started then StartedIn(due, visits, n - 1) + [due[n - 1]]
    else StartedIn(due, visits, n - 1)
  }

  lemma {:induction false} StartedMeaning(rows: Rows, due: seq<string>, visits: seq<Visit>, n: nat)
    requires n <= |due| == |visits|
    ensures PollOf(rows, due, visits, n).started == StartedIn(due, visits, n)
  {
    if n == 0 {
    } else {
      StartedMeaning(rows, due, visits, n - 1);
      ReachedMeaning(rows, due, visits, n - 1);
    }
  }

  lemma {:induction false} CountStarts(due: seq<string>, visits: seq<Visit>, n: nat, id: string)
    requires n <= |due| == |visits|
    ensures Times(StartedIn(due, visits, n), id) == StartsIn(due, visits, n, id)
  {
    if n == 0 {
    } else {
      CountStarts(due, visits, n - 1, id);
      OneMoreTime(StartedIn(due, visits, n - 1), due[n - 1], id);
    }
  }

  lemma OneMoreTime(ids: seq<string>, other: string, id: string)
    ensures Times(ids + [other], id) == Times(ids, id) + if other == id then 1 else 0
  {
  }

  lemma StartsMeaning(rows: Rows, due: seq<string>, visits: seq<Visit>, n: nat, id: string)
    requires n <= |due| == |visits|
    ensures Times(PollOf(rows, due, visits, n).started, id) == StartsIn(due, visits, n, id)
  {
    StartedMeaning(rows, due, visits, n);
    CountStarts(due, visits, n, id);
  }

  /** A due pipeline gets at most one run from a poll, and only from its own visit. */
  lemma {:induction false} StartedOnce(due: seq<string>, visits: seq<Visit>, n: nat, i: nat)
    requires Distinct(due) && i < |due| == |visits| && n <= |due|
    ensures StartsIn(due, visits, n, due[i]) == if i < n && Reached(visits, i) && visits[i].started then 1 else 0
  {
    if n == 0 {
    } else {
      StartedOnce(due, visits, n - 1, i);
    }
  }

  /** A poll creates a run for a due pipeline iff it reaches it, its schedule is valid, it has no active run, and
      neither the check nor the creation of the run itself throws; and it creates no second one. */
  lemma StartedIff(zones: Zones, rows: Rows, due: seq<string>, now: int, answers: nat -> Answer, i: nat)
    requires DueList(rows, now, due) && i < |due|
    ensures var visits := VisitsOf(zones, rows, due, now, answers);
            Times(PollOf(rows, due, visits, |due|).started, due[i]) ==
            if Reached(visits, i) && ScheduleOf(zones, rows[due[i]], now).Some? && !answers(i).active
               && answers(i).fault != CheckThrows && answers(i).fault != RunThrows(false) then 1 else 0
  {
    var visits := VisitsOf(zones, rows, due, now, answers);
    StartsMeaning(rows, due, visits, |due|, due[i]);
    StartedOnce(due, visits, |due|, i);
    VisitsAt(zones, rows, due, now, answers, i);
    VisitStarts(ScheduleOf(zones, rows[due[i]], now), answers(i));
  }

  /** A poll visits each active pipeline with an enabled schedule whose next run has come, once, unless a visit
      before it throws; it visits no other. */
  lemma DueIsVisited(zones: Zones, rows: Rows, due: seq<string>, now: int, answers: nat -> Answer, id: string)
    requires DueList(rows, now, due) && id in rows
    ensures var row := rows[id]; var visits := VisitsOf(zones, rows, due, now, answers);
            if row.status == Active && row.scheduleEnabled && row.scheduleCron.Some?
               && row.nextRunAt.Some? && row.nextRunAt.value <= now
            then exists i :: && 0 <= i < |due| && due[i] == id && multiset(due)[id] == 1
                             && (Reached(visits, i) || exists j :: 0 <= j < i && visits[j].verdict == Threw)
            else id !in due
  {
    if id in due {
      var i :| 0 <= i < |due| && due[i] == id;
      var visits := VisitsOf(zones, rows, due, now, answers);
      assert Reached(visits, i) || exists j :: 0 <= j < i && visits[j].verdict == Threw;
      OnceInDistinct(due, i);
    }
  }

  lemma OnceInDistinct(ids: seq<string>, i: nat)
    requires Distinct(ids) && i < |ids|
    ensures multiset(ids)[ids[i]] == 1
  {
    var before, after := ids[..i], ids[i + 1..];
    assert ids == before + [ids[i]] + after;
    assert ids[i] !in before && ids[i] !in after;
  }

  lemma VisitStarts(schedule: Option<Option<int>>, answer: Answer)
    ensures VisitOf(schedule, answer).started <==>
            schedule.Some? && !answer.active && answer.fault != CheckThrows && answer.fault != RunThrows(false)
  {
  }

  lemma {:induction false} OthersNotStarted(due: seq<string>, visits: seq<Visit>, n: nat, id: string)
    requires |due| == |visits| && n <= |due| && id !in due
    ensures StartsIn(due, visits, n, id) == 0
  {
    if n == 0 {
    } else {
      OthersNotStarted(due, visits, n - 1, id);
    }
  }

  /** Each due pipeline is changed by its own visit alone, and only if the poll reaches it; every other
      pipeline is left as it was. */
  lemma PollPointwise(rows: Rows, due: seq<string>, visits: seq<Visit>, id: string)
    requires Distinct(due) && |due| == |visits| && id in rows
    ensures id in PollOf(rows, due, visits, |due|).rows
    ensures var after := PollOf(rows, due, visits, |due|).rows[id];
            && (id !in due ==> after == rows[id])
            && forall i :: 0 <= i < |due| && due[i] == id ==>
                 after == if Reached(visits, i) then RowAfter(rows[id], visits[i]) else rows[id]
  {
    assert due[..|due|] == due;
    if id !in due {
      OthersUntouched(rows, due, visits, |due|, id);
    } else {
      var i :| 0 <= i < |due| && due[i] == id;
      OwnVisit(rows, due, visits, |due|, i);
    }
    forall i | 0 <= i < |due| && due[i] == id
      ensures PollOf(rows, due, visits, |due|).rows[id] ==
              if Reached(visits, i) then RowAfter(rows[id], visits[i]) else rows[id]
    {
      OwnVisit(rows, due, visits, |due|, i);
    }
  }

  lemma ScheduleIsLater(zones: Zones, row: Row, now: int)
    requires ScheduleOf(zones, row, now).Some? && ScheduleOf(zones, row, now).value.Some?
    ensures ScheduleOf(zones, row, now).value.value > now
  {
    NextRunIsLeast(CronOf(RowCron(row)).value, zones(RowZone(row)).value, now);
  }

  /** After a poll that returns, a pipeline that was due is due still iff it was skipped. */
  lemma DueAfterPoll(zones: Zones, rows: Rows, due: seq<string>, now: int, answers: nat -> Answer, i: nat)
    requires DueList(rows, now, due) && i < |due|
    requires !PollOf(rows, due, VisitsOf(zones, rows, due, now, answers), |due|).threw
    ensures due[i] in PollOf(rows, due, VisitsOf(zones, rows, due, now, answers), |due|).rows
    ensures var visits := VisitsOf(zones, rows, due, now, answers);
            IsDue(PollOf(rows, due, visits, |due|).rows[due[i]], now) <==> visits[i].verdict == Skipped
  {
    var visits := VisitsOf(zones, rows, due, now, answers);
    ReachedMeaning(rows, due, visits, |due|);
    OwnVisit(rows, due, visits, |due|, i);
    VisitsAt(zones, rows, due, now, answers, i);
    assert due[i] in due;
    if ScheduleOf(zones, rows[due[i]], now).Some? && ScheduleOf(zones, rows[due[i]], now).value.Some? {
      ScheduleIsLater(zones, rows[due[i]], now);
    }
    DueAfterVisit(rows[due[i]], now, ScheduleOf(zones, rows[due[i]], now), answers(i));
  }

  lemma DueAfterVisit(row: Row, now: int, schedule: Option<Option<int>>, answer: Answer)
    requires IsDue(row, now)
    requires schedule.Some? && schedule.value.Some? ==> schedule.value.value > now
    ensures var visit := VisitOf(schedule, answer);
            visit.verdict != Threw ==> (IsDue(RowAfter(row, visit), now) <==> visit.verdict == Skipped)
  {
  }

  /** An update takes expression and zone from the change if it has them, else from the row, else it has none and
      UTC; what the poller takes from the row has the same defaults, and a blank zone is UTC too. Spaces at the
      ends do not count. */
  lemma TextsMeaning(change: Change, row: Row)
    ensures TrimmedTo(match change.scheduleCron
                      case Some(cron) => cron
                      case None => match row.scheduleCron case Some(cron) => cron case None => "",
                      WantedCron(change, row))
    ensures TrimmedTo(match change.scheduleTimezone
                      case Some(zone) => zone
                      case None => match row.scheduleTimezone case Some(zone) => zone case None => "UTC",
                      WantedZone(change, row))
    ensures TrimmedTo(match row.scheduleCron case Some(cron) => cron case None => "", RowCron(row))
    ensures match row.scheduleTimezone
            case Some(zone) => if AllSpaces(zone) then RowZone(row) == "UTC" else TrimmedTo(zone, RowZone(row))
            case None => RowZone(row) == "UTC"
  {
    TrimMeaning(OrElse(change.scheduleCron, row.scheduleCron).GetOr(""), WantedCron(change, row));
    TrimMeaning(OrElse(change.scheduleTimezone, row.scheduleTimezone).GetOr("UTC"), WantedZone(change, row));
    TrimMeaning(row.scheduleCron.GetOr(""), RowCron(row));
    var zone := row.scheduleTimezone.GetOr("UTC");
    TrimMeaning(zone, Trim(zone));
    TrimEmptyIff(zone);
    assert Trim("UTC") == "UTC";
  }

  /** A schedule that is saved as enabled is never skipped as invalid: the poller, which trims again and has
      another default zone, reads back the expression and the zone that the update checked. */
  lemma SavedScheduleIsValid(zones: Zones, change: Change, row: Row, now: int, saved: Row, later: int)
    requires zones("").None? && Saved(zones, change, row, now, saved) && saved.scheduleEnabled
    ensures var c := CronOf(WantedCron(change, row)); var offset := zones(WantedZone(change, row));
            && c.Ok? && offset.Some?
            && ScheduleOf(zones, saved, later) == Some(NextRun(c.value, offset.value, later))
            && (row.status == Active ==> ScheduleOf(zones, saved, now) == Some(saved.nextRunAt))
  {
    TrimIdempotent(OrElse(change.scheduleCron, row.scheduleCron).GetOr(""));
    TrimIdempotent(OrElse(change.scheduleTimezone, row.scheduleTimezone).GetOr("UTC"));
    EmptyExpression();
  }

  lemma EmptyExpression()
    ensures CronOf("").Err?
  {
  }

  // ----- a paused pipeline -----

  /** A schedule can be switched on for a paused pipeline; it has no next run then and is never due. */
  lemma PausedIsNeverDue(zones: Zones, change: Change, row: Row, now: int, saved: Row, later: int)
    requires row.status == Paused && Saved(zones, change, row, now, saved)
    ensures saved.status == Paused && saved.nextRunAt == None && !IsDue(saved, later)
  {
  }

  lemma ParsesTrimmed(cron: string)
    requires CronOf(cron).Ok?
    ensures Trim(cron) != "" && CronOf(Trim(cron)) == CronOf(cron)
  {
    StoredExpressionParsesAlike(cron);
    EmptyExpression();
  }

  /** An input for it: any expression that parses, on a paused pipeline that had no schedule. */
  lemma PausedCanBeScheduled(zones: Zones, now: int, cron: string)
    requires zones("UTC").Some? && CronOf(cron).Ok?
    ensures var row := Row(Paused, false, None, None, None, false);
            var change := Change(Some(true), Some(cron), None, None);
            && Saved(zones, change, row, now, Row(Paused, true, Some(Trim(cron)), Some("UTC"), None, false))
            && forall e :: !Refused(zones, change, row, e)
  {
    assert Trim("UTC") == "UTC";
    ParsesTrimmed(cron);
  }
}
