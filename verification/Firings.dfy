/**
 How often the poller fires one pipeline whose schedule is not edited, over any run of polls. The search for
 the next run is a function `next` of the instant it starts from.
 */
module Firings {
  import opened Common
  import opened CronExpressions
  import opened CronSearch
  import opened Horizon
  import opened Scheduler

  /** A saved schedule and the polls that reached the pipeline since, the latest outermost. */
  datatype History = SavedAt(at: int) | Polled(past: History, now: int, answer: Answer)

  type Search = int -> Option<int>

  ghost predicate Later(next: Search) {
    forall t :: next(t).Some? ==> next(t).value > t
  }

  predicate DueAt(nextRunAt: Option<int>, now: int) {
    nextRunAt.Some? && nextRunAt.value <= now
  }

  /** The stored `nextRunAt` after a history. */
  function Stored(next: Search, h: History): Option<int> {
    match h
    case SavedAt(at) => next(at)
    case Polled(past, now, answer) =>
      var stored := Stored(next, past);
      if DueAt(stored, now) then VisitOf(Some(next(now)), answer).next.GetOr(stored) else stored
  }

  /** A run that the poller created at `at` because of the stored instant `due`, and what threw in that visit. */
  datatype Firing = Firing(due: int, at: int, fault: Fault)

  /** Neither the creation of the run, after its row existed, nor the update of `nextRunAt` throws. */
  predicate Advances(fault: Fault) {
    fault != RunThrows(true) && fault != AdvanceThrows
  }

  function Firings(next: Search, h: History): seq<Firing> {
    match h
    case SavedAt(_) => []
    case Polled(past, now, answer) =>
      var stored, visit := Stored(next, past), VisitOf(Some(next(now)), answer);
      Firings(next, past) +
      if DueAt(stored, now) && visit.started then [Firing(stored.value, now, answer.fault)] else []
  }

  /** The stored instant, seen from the last firing. */
  ghost predicate Follows(firing: Firing, stored: Option<int>) {
    if Advances(firing.fault) then stored.Some? ==> stored.value > firing.at else stored == Some(firing.due)
  }

  ghost predicate Computed(next: Search, due: int) {
    exists t :: next(t) == Some(due)
  }

  lemma {:induction false} StoredIsComputed(next: Search, h: History)
    ensures Stored(next, h).Some? ==> Computed(next, Stored(next, h).value)
  {
    match h
    case SavedAt(at) =>
    case Polled(past, now, answer) => StoredIsComputed(next, past);
  }

  lemma {:induction false} LastFollowed(next: Search, h: History)
    requires Later(next)
    ensures var fs := Firings(next, h); fs != [] ==> Follows(fs[|fs| - 1], Stored(next, h))
  {
    if h.SavedAt? {
    } else {
      LastFollowed(next, h.past);
    }
  }

  /** What every firing keeps, whatever the store does. */
  ghost predicate Rhythm(next: Search, fs: seq<Firing>) {
    && (forall k :: 0 <= k < |fs| ==> fs[k].due <= fs[k].at && Computed(next, fs[k].due))
    && (forall k :: 0 < k < |fs| ==> Follows(fs[k - 1], Some(fs[k].due)))
  }

  /** The k-th firing, at t_k, was made due by a computed instant r_k with r_k <= t_k. If the store moved
      `nextRunAt` then, t_k < r_{k+1}; if it threw between the run and the move, r_{k+1} is r_k again. */
  lemma {:induction false} RhythmHolds(next: Search, h: History)
    requires Later(next)
    ensures Rhythm(next, Firings(next, h))
  {
    if h.SavedAt? {
    } else {
      RhythmHolds(next, h.past);
      LastFollowed(next, h.past);
      StoredIsComputed(next, h.past);
    }
  }

  predicate AlwaysAdvances(h: History) {
    h.Polled? ==> Advances(h.answer.fault) && AlwaysAdvances(h.past)
  }

  lemma {:induction false} AllAdvance(next: Search, h: History)
    requires AlwaysAdvances(h)
    ensures forall k :: 0 <= k < |Firings(next, h)| ==> Advances(Firings(next, h)[k].fault)
  {
    if h.SavedAt? {
    } else {
      AllAdvance(next, h.past);
    }
  }

  lemma {:induction false} DuesGrow(next: Search, fs: seq<Firing>, i: nat, j: nat)
    requires Rhythm(next, fs) && i < j < |fs| && forall k :: 0 <= k < |fs| ==> Advances(fs[k].fault)
    ensures fs[i].at < fs[j].due && fs[i].due < fs[j].due
    decreases j
  {
    assert Follows(fs[j - 1], Some(fs[j].due));
    if i < j - 1 {
      DuesGrow(next, fs, i, j - 1);
    }
  }

  // ----- with the cron search -----

  ghost function Cron(c: ParsedCron, offset: int): Search {
    (t: int) => NextRun(c, offset, t)
  }

  lemma CronIsLater(c: ParsedCron, offset: int)
    ensures Later(Cron(c, offset))
  {
    forall t | Cron(c, offset)(t).Some? ensures Cron(c, offset)(t).value > t {
      NextRunIsLeast(c, offset, t);
    }
  }

  predicate AtMatch(matches: int -> bool, due: int) {
    due % MS_PER_MINUTE == 0 && matches(due / MS_PER_MINUTE)
  }

  lemma ComputedMatches(c: ParsedCron, offset: int, due: int)
    requires Computed(Cron(c, offset), due)
    ensures AtMatch(Matching(c, offset), due)
  {
    var t :| Cron(c, offset)(t) == Some(due);
    NextRunIsLeast(c, offset, t);
    var m :| Some(due) == Some(m * MS_PER_MINUTE) && Matching(c, offset)(m);
    WholeMinutes(m);
  }

  /** Never more often than the expression says: unless a run is created and the update lost, every firing
      belongs to a matching minute of its own, r_0 <= t_0 < r_1 <= t_1 < ..., and it is never early. */
  lemma NeverMoreOften(c: ParsedCron, offset: int, h: History)
    requires AlwaysAdvances(h)
    ensures var fs := Firings(Cron(c, offset), h);
            && (forall k :: 0 <= k < |fs| ==> AtMatch(Matching(c, offset), fs[k].due) && fs[k].due <= fs[k].at)
            && (forall j, k :: 0 <= j < k < |fs| ==> fs[j].at < fs[k].due)
  {
    var next := Cron(c, offset);
    var fs := Firings(next, h);
    CronIsLater(c, offset);
    RhythmHolds(next, h);
    AllAdvance(next, h);
    forall k | 0 <= k < |fs| ensures AtMatch(Matching(c, offset), fs[k].due) {
      ComputedMatches(c, offset, fs[k].due);
    }
    forall j, k | 0 <= j < k < |fs| ensures fs[j].at < fs[k].due {
      DuesGrow(next, fs, j, k);
    }
  }

  /** Two firings in a row share their minute iff the first created its run and then failed to move `nextRunAt`:
      the creation threw after its row existed, or the update threw. */
  lemma SharedMinuteIff(c: ParsedCron, offset: int, h: History, k: nat)
    requires 0 < k < |Firings(Cron(c, offset), h)|
    ensures var fs := Firings(Cron(c, offset), h);
            fs[k - 1].due == fs[k].due <==> fs[k - 1].fault == RunThrows(true) || fs[k - 1].fault == AdvanceThrows
  {
    CronIsLater(c, offset);
    RhythmHolds(Cron(c, offset), h);
    assert Follows(Firings(Cron(c, offset), h)[k - 1], Some(Firings(Cron(c, offset), h)[k].due));
  }

  /** It comes to that: after a lost update the next poll without an active run fires for the same minute. */
  lemma LostMoveFiresAgain(next: Search, at: int, t: int, u: int)
    requires next(at).Some? && next(at).value <= t && next(at).value <= u
    ensures Firings(next, Polled(Polled(SavedAt(at), t, Answer(false, AdvanceThrows)), u, Answer(false, NoFault))) ==
            [Firing(next(at).value, t, AdvanceThrows), Firing(next(at).value, u, NoFault)]
  {
    var first := Polled(SavedAt(at), t, Answer(false, AdvanceThrows));
    assert Stored(next, first) == next(at);
    assert Firings(next, first) == [Firing(next(at).value, t, AdvanceThrows)];
  }

  // ----- a poll of the service is a step of the history -----

  ghost predicate RunsBy(zones: Zones, row: Row, c: ParsedCron, offset: int) {
    && row.status == Active && row.scheduleEnabled && row.scheduleCron.Some?
    && forall t :: ScheduleOf(zones, row, t) == Some(Cron(c, offset)(t))
  }

  lemma VisitIsStep(next: Search, h: History, now: int, answer: Answer, row: Row)
    requires row.nextRunAt == Stored(next, h) && DueAt(row.nextRunAt, now)
    ensures var visit := VisitOf(Some(next(now)), answer);
            && RowAfter(row, visit) == row.(nextRunAt := Stored(next, Polled(h, now, answer)))
            && |Firings(next, Polled(h, now, answer))| == |Firings(next, h)| + if visit.started then 1 else 0
  {
  }

  lemma PollLeaves(zones: Zones, rows: Rows, due: seq<string>, now: int, answers: nat -> Answer, id: string)
    requires AllKnown(rows, due) && Distinct(due) && id in rows && id !in due
    ensures var p := PollOf(rows, due, VisitsOf(zones, rows, due, now, answers), |due|);
            id in p.rows && p.rows[id] == rows[id] && Times(p.started, id) == 0
  {
    var visits := VisitsOf(zones, rows, due, now, answers);
    PollPointwise(rows, due, visits, id);
    StartsMeaning(rows, due, visits, |due|, id);
    OthersNotStarted(due, visits, |due|, id);
  }

  lemma PollVisits(zones: Zones, rows: Rows, due: seq<string>, now: int, answers: nat -> Answer, i: nat)
    requires AllKnown(rows, due) && Distinct(due) && i < |due|
    ensures var visits := VisitsOf(zones, rows, due, now, answers); var p := PollOf(rows, due, visits, |due|);
            var visit := VisitOf(ScheduleOf(zones, rows[due[i]], now), answers(i));
            && due[i] in p.rows
            && p.rows[due[i]] == (if Reached(visits, i) then RowAfter(rows[due[i]], visit) else rows[due[i]])
            && Times(p.started, due[i]) == if Reached(visits, i) && visit.started then 1 else 0
  {
    var visits := VisitsOf(zones, rows, due, now, answers);
    PollPointwise(rows, due, visits, due[i]);
    StartsMeaning(rows, due, visits, |due|, due[i]);
    StartedOnce(due, visits, |due|, i);
    VisitsAt(zones, rows, due, now, answers, i);
  }

  lemma VisitExtends(zones: Zones, rows: Rows, due: seq<string>, now: int, answers: nat -> Answer, i: nat,
                     c: ParsedCron, offset: int, h: History)
    requires AllKnown(rows, due) && Distinct(due) && i < |due| && RunsBy(zones, rows[due[i]], c, offset)
    requires rows[due[i]].nextRunAt == Stored(Cron(c, offset), h) && DueAt(rows[due[i]].nextRunAt, now)
    requires Reached(VisitsOf(zones, rows, due, now, answers), i)
    ensures var p := PollOf(rows, due, VisitsOf(zones, rows, due, now, answers), |due|);
            var after := Polled(h, now, answers(i));
            && due[i] in p.rows
            && p.rows[due[i]] == rows[due[i]].(nextRunAt := Stored(Cron(c, offset), after))
            && |Firings(Cron(c, offset), after)| == |Firings(Cron(c, offset), h)| + Times(p.started, due[i])
  {
    PollVisits(zones, rows, due, now, answers, i);
    assert ScheduleOf(zones, rows[due[i]], now) == Some(Cron(c, offset)(now));
    VisitIsStep(Cron(c, offset), h, now, answers(i), rows[due[i]]);
  }

  /** Whatever else a poll visits and wherever it throws, a pipeline either keeps its history or gains one
      visit; its row follows the stored instant of the history, and its new runs are its new firings. It keeps its
      history only if it is not due or an earlier visit throws. */
  lemma PollExtendsHistory(zones: Zones, rows: Rows, due: seq<string>, now: int, answers: nat -> Answer, id: string,
                           c: ParsedCron, offset: int, h: History)
    returns (after: History, visited: bool)
    requires DueList(rows, now, due) && id in rows && RunsBy(zones, rows[id], c, offset)
    requires rows[id].nextRunAt == Stored(Cron(c, offset), h)
    ensures if visited then exists i :: 0 <= i < |due| && due[i] == id && after == Polled(h, now, answers(i))
            else after == h
    ensures !visited && id in due ==>
              exists j :: 0 <= j < |due| && VisitsOf(zones, rows, due, now, answers)[j].verdict == Threw
    ensures var p := PollOf(rows, due, VisitsOf(zones, rows, due, now, answers), |due|);
            && id in p.rows
            && p.rows[id] == rows[id].(nextRunAt := Stored(Cron(c, offset), after))
            && |Firings(Cron(c, offset), after)| == |Firings(Cron(c, offset), h)| + Times(p.started, id)
  {
    after, visited := h, false;
    if id !in due {
      PollLeaves(zones, rows, due, now, answers, id);
    } else {
      var i :| 0 <= i < |due| && due[i] == id;
      if Reached(VisitsOf(zones, rows, due, now, answers), i) {
        after, visited := Polled(h, now, answers(i)), true;
        VisitExtends(zones, rows, due, now, answers, i, c, offset, h);
      } else {
        PollVisits(zones, rows, due, now, answers, i);
      }
    }
  }

  // ----- counting -----

  predicate PolledUntil(h: History, until: int) {
    h.Polled? ==> h.now <= until && PolledUntil(h.past, until)
  }

  function SavedTime(h: History): int {
    match h case SavedAt(at) => at case Polled(past, _, _) => SavedTime(past)
  }

  lemma {:induction false} FiredUntil(next: Search, h: History, until: int)
    requires PolledUntil(h, until)
    ensures forall k :: 0 <= k < |Firings(next, h)| ==> Firings(next, h)[k].at <= until
  {
    if h.SavedAt? {
    } else {
      FiredUntil(next, h.past, until);
    }
  }

  lemma {:induction false} FirstStored(next: Search, h: History)
    ensures Firings(next, h) == [] && Stored(next, h).Some? ==> Stored(next, h) == next(SavedTime(h))
    ensures Firings(next, h) != [] ==> Some(Firings(next, h)[0].due) == next(SavedTime(h))
  {
    if h.SavedAt? {
    } else {
      FirstStored(next, h.past);
    }
  }

  function MatchingMinutes(matches: int -> bool, after: int, until: int): set<int> {
    set m | after < m <= until && matches(m)
  }

  /** The minute of a firing. */
  function MinuteOf(f: Firing): int {
    f.due / MS_PER_MINUTE
  }

  lemma {:induction false} DistinctMinutes(fs: seq<Firing>, minutes: set<int>)
    requires forall k :: 0 <= k < |fs| ==> MinuteOf(fs[k]) in minutes
    requires forall j, k :: 0 <= j < k < |fs| ==> MinuteOf(fs[j]) < MinuteOf(fs[k])
    ensures |fs| <= |minutes|
  {
    if fs == [] {
    } else {
      var n := |fs| - 1;
      var last := MinuteOf(fs[n]);
      forall k | 0 <= k < n ensures MinuteOf(fs[..n][k]) in minutes - {last} {
        assert MinuteOf(fs[k]) < last;
      }
      DistinctMinutes(fs[..n], minutes - {last});
    }
  }

  lemma MinutesGrow(a: int, b: int)
    requires a < b && a % MS_PER_MINUTE == 0 && b % MS_PER_MINUTE == 0
    ensures a / MS_PER_MINUTE < b / MS_PER_MINUTE
  {
  }

  lemma AfterSave(from: int, due: int)
    requires from < due && due % MS_PER_MINUTE == 0
    ensures from / MS_PER_MINUTE < due / MS_PER_MINUTE
  {
  }

  /** So the firings are at most as many as the matching minutes between the save and the last poll. */
  lemma FiringsBounded(c: ParsedCron, offset: int, h: History, until: int)
    requires AlwaysAdvances(h) && PolledUntil(h, until)
    ensures |Firings(Cron(c, offset), h)| <=
            |MatchingMinutes(Matching(c, offset), SavedTime(h) / MS_PER_MINUTE, until / MS_PER_MINUTE)|
  {
    var next := Cron(c, offset);
    var fs := Firings(next, h);
    NeverMoreOften(c, offset, h);
    FiredUntil(next, h, until);
    FirstStored(next, h);
    CronIsLater(c, offset);
    var minutes := MatchingMinutes(Matching(c, offset), SavedTime(h) / MS_PER_MINUTE, until / MS_PER_MINUTE);
    forall j, k | 0 <= j < k < |fs| ensures MinuteOf(fs[j]) < MinuteOf(fs[k]) {
      MinutesGrow(fs[j].due, fs[k].due);
    }
    forall k | 0 <= k < |fs| ensures MinuteOf(fs[k]) in minutes {
      AfterSave(SavedTime(h), fs[0].due);
      assert k > 0 ==> MinuteOf(fs[0]) < MinuteOf(fs[k]);
    }
    DistinctMinutes(fs, minutes);
  }

  // ----- and never less often, while the search finds a next run -----

  /** Every visit of a due pipeline starts a run and moves `nextRunAt`. */
  predicate Fires(answer: Answer) {
    !answer.active && (answer.fault == NoFault || answer.fault == AuditThrows)
  }

  predicate AlwaysFires(h: History) {
    h.Polled? ==> Fires(h.answer) && AlwaysFires(h.past)
  }

  /** When the stored instant was computed last: at the last firing, or at the save. */
  function LastMove(next: Search, h: History): int {
    var fs := Firings(next, h);
    if fs == [] then SavedTime(h) else fs[|fs| - 1].at
  }

  lemma {:induction false} StoredSinceMove(next: Search, h: History)
    requires AlwaysFires(h)
    ensures Stored(next, h) == next(LastMove(next, h))
  {
    match h
    case SavedAt(_) =>
    case Polled(past, _, _) => StoredSinceMove(next, past);
  }

  /** A matching minute after the last move, and not after the poll. */
  ghost predicate MatchSince(matches: int -> bool, after: int, now: int) {
    exists m :: after < m * MS_PER_MINUTE <= now && matches(m)
  }

  lemma NextByIff(c: ParsedCron, offset: int, after: int, now: int)
    requires NextRun(c, offset, after).Some?
    ensures NextRun(c, offset, after).value <= now <==> MatchSince(Matching(c, offset), after, now)
  {
    NextRunIsLeast(c, offset, after);
    var at :| NextRun(c, offset, after) == Some(at * MS_PER_MINUTE) && Matching(c, offset)(at)
              && forall m :: after < m * MS_PER_MINUTE && m < at ==> !Matching(c, offset)(m);
    if MatchSince(Matching(c, offset), after, now) {
      var m :| after < m * MS_PER_MINUTE <= now && Matching(c, offset)(m);
      assert m >= at;
    }
  }

  /** A poll fires iff a matching minute lies between the last firing, or the save, and the poll, as long as the
      search from there finds a next run. */
  lemma FiresIff(c: ParsedCron, offset: int, h: History, now: int, answer: Answer)
    requires AlwaysFires(h) && Fires(answer)
    requires NextRun(c, offset, LastMove(Cron(c, offset), h)).Some?
    ensures |Firings(Cron(c, offset), Polled(h, now, answer))| ==
            |Firings(Cron(c, offset), h)| +
            if MatchSince(Matching(c, offset), LastMove(Cron(c, offset), h), now) then 1 else 0
  {
    var next := Cron(c, offset);
    StoredSinceMove(next, h);
    NextByIff(c, offset, LastMove(next, h), now);
    FiresIfDue(next, h, now, answer);
  }

  lemma FiresIfDue(next: Search, h: History, now: int, answer: Answer)
    requires Fires(answer)
    ensures |Firings(next, Polled(h, now, answer))| == |Firings(next, h)| + if DueAt(Stored(next, h), now) then 1 else 0
  {
  }

  ghost predicate Continues(h: History, earlier: History) {
    h == earlier || (h.Polled? && Continues(h.past, earlier))
  }

  /** Once the search has found none the pipeline never fires again. */
  lemma {:induction false} DormantForGood(next: Search, h: History, earlier: History)
    requires Continues(h, earlier) && Stored(next, earlier).None?
    ensures Stored(next, h).None? && Firings(next, h) == Firings(next, earlier)
  {
    if h == earlier {
    } else {
      DormantForGood(next, h.past, earlier);
      assert Firings(next, h.past) + [] == Firings(next, h.past);
    }
  }

  /** That cannot happen to an expression that admits a date on a weekday in every shape of two years in a row. */
  lemma {:induction false} NeverDormant(c: ParsedCron, offset: int, h: History)
    requires WellFormed(c) && AllShapesHit(c)
    ensures Stored(Cron(c, offset), h).Some?
  {
    CompleteIffShapes(c, offset);
    match h
    case SavedAt(at) => assert NextRun(c, offset, at).Some?;
    case Polled(past, now, _) =>
      NeverDormant(c, offset, past);
      assert NextRun(c, offset, now).Some?;
  }

  /** For such an expression every poll fires iff a matching minute has come since the last firing. */
  lemma FiresWheneverDue(c: ParsedCron, offset: int, h: History, now: int, answer: Answer)
    requires WellFormed(c) && AllShapesHit(c) && AlwaysFires(h) && Fires(answer)
    ensures |Firings(Cron(c, offset), Polled(h, now, answer))| ==
            |Firings(Cron(c, offset), h)| +
            if MatchSince(Matching(c, offset), LastMove(Cron(c, offset), h), now) then 1 else 0
  {
    CompleteIffShapes(c, offset);
    assert NextRun(c, offset, LastMove(Cron(c, offset), h)).Some?;
    FiresIff(c, offset, h, now, answer);
  }

  // ----- any run of polls of the service -----

  /** The rows at the start, and the polls since, the latest outermost. */
  datatype Service = Began(rows: Rows) | Serves(past: Service, due: seq<string>, now: int, answers: nat -> Answer)

  datatype Served = Served(rows: Rows, started: seq<string>)

  /** The rows and the runs that `EnqueueDuePipelines` leaves poll by poll, each over the store's due list. */
  ghost function ServedBy(zones: Zones, s: Service): Option<Served> {
    match s
    case Began(rows) => Some(Served(rows, []))
    case Serves(past, due, now, answers) =>
      match ServedBy(zones, past)
      case None => None
      case Some(before) =>
        if !DueList(before.rows, now, due) then None
        else
          var p := PollOf(before.rows, due, VisitsOf(zones, before.rows, due, now, answers), |due|);
          Some(Served(p.rows, before.started + p.started))
  }

  function FirstRows(s: Service): Rows {
    match s case Began(rows) => rows case Serves(past, _, _, _) => FirstRows(past)
  }

  /** No poll is later than `until`, and no visit creates a run and loses the update of `nextRunAt`. */
  predicate Steady(s: Service, until: int) {
    match s
    case Began(_) => true
    case Serves(past, due, now, answers) =>
      now <= until && Steady(past, until) && forall i :: 0 <= i < |due| ==> Advances(answers(i).fault)
  }

  lemma RunsBySame(zones: Zones, row: Row, c: ParsedCron, offset: int, nextRunAt: Option<int>)
    requires RunsBy(zones, row, c, offset)
    ensures RunsBy(zones, row.(nextRunAt := nextRunAt), c, offset)
  {
  }

  lemma TimesBoth(a: seq<string>, b: seq<string>, id: string)
    ensures Times(a + b, id) == Times(a, id) + Times(b, id)
  {
  }

  /** Over any run of polls, whatever fails, the runs that the service creates for a pipeline are the firings
      of one history, which starts where its schedule was saved. */
  lemma {:induction false} ServiceHasHistory(zones: Zones, s: Service, id: string, c: ParsedCron, offset: int, at: int,
                                             until: int)
    returns (h: History)
    requires ServedBy(zones, s).Some? && id in FirstRows(s) && RunsBy(zones, FirstRows(s)[id], c, offset)
    requires FirstRows(s)[id].nextRunAt == Cron(c, offset)(at)
    ensures SavedTime(h) == at && (Steady(s, until) ==> PolledUntil(h, until) && AlwaysAdvances(h))
    ensures var served := ServedBy(zones, s).value;
            && id in served.rows
            && served.rows[id] == FirstRows(s)[id].(nextRunAt := Stored(Cron(c, offset), h))
            && Times(served.started, id) == |Firings(Cron(c, offset), h)|
  {
    match s
    case Began(_) => h := SavedAt(at);
    case Serves(past, due, now, answers) =>
      var before := ServedBy(zones, past).value;
      var earlier := ServiceHasHistory(zones, past, id, c, offset, at, until);
      RunsBySame(zones, FirstRows(s)[id], c, offset, before.rows[id].nextRunAt);
      var visited;
      h, visited := PollExtendsHistory(zones, before.rows, due, now, answers, id, c, offset, earlier);
      TimesBoth(before.started,
                PollOf(before.rows, due, VisitsOf(zones, before.rows, due, now, answers), |due|).started, id);
  }

  /** So a pipeline whose schedule an update has enabled gets at most as many runs from all later polls of the
      service as its expression has minutes between the update and the last poll. */
  lemma ServiceNeverMoreOften(zones: Zones, change: Change, row: Row, now: int, s: Service, id: string, until: int)
    requires zones("").None? && ServedBy(zones, s).Some? && Steady(s, until) && id in FirstRows(s)
    requires Saved(zones, change, row, now, FirstRows(s)[id])
    requires FirstRows(s)[id].scheduleEnabled && row.status == Active
    ensures CronOf(WantedCron(change, row)).Ok? && zones(WantedZone(change, row)).Some?
    ensures Times(ServedBy(zones, s).value.started, id) <=
            |MatchingMinutes(Matching(CronOf(WantedCron(change, row)).value, zones(WantedZone(change, row)).value),
                             now / MS_PER_MINUTE, until / MS_PER_MINUTE)|
  {
    var saved := FirstRows(s)[id];
    SavedScheduleIsValid(zones, change, row, now, saved, now);
    var c, offset := CronOf(WantedCron(change, row)).value, zones(WantedZone(change, row)).value;
    forall t ensures ScheduleOf(zones, saved, t) == Some(Cron(c, offset)(t)) {
      SavedScheduleIsValid(zones, change, row, now, saved, t);
    }
    var h := ServiceHasHistory(zones, s, id, c, offset, now, until);
    FiringsBounded(c, offset, h, until);
  }

  // ----- and never less often -----

  /** Nothing fails in any poll, and no pipeline has an active run. */
  predicate Calm(s: Service) {
    s.Serves? ==> Calm(s.past) && forall i :: 0 <= i < |s.due| ==> s.answers(i) == Answer(false, NoFault)
  }

  ghost function StartedByLast(zones: Zones, s: Service): seq<string>
    requires s.Serves? && ServedBy(zones, s).Some?
  {
    var rows := ServedBy(zones, s.past).value.rows;
    PollOf(rows, s.due, VisitsOf(zones, rows, s.due, s.now, s.answers), |s.due|).started
  }

  /** When a pipeline got its last run, or else was saved. */
  ghost function LastStart(zones: Zones, s: Service, id: string, at: int): int
    requires ServedBy(zones, s).Some?
  {
    match s
    case Began(_) => at
    case Serves(past, _, now, _) => if id in StartedByLast(zones, s) then now else LastStart(zones, past, id, at)
  }

  lemma CalmVisit(zones: Zones, rows: Rows, due: seq<string>, now: int, answers: nat -> Answer, i: nat)
    requires AllKnown(rows, due) && i < |due| && answers(i) == Answer(false, NoFault)
    ensures VisitsOf(zones, rows, due, now, answers)[i].verdict != Threw
  {
    VisitsAt(zones, rows, due, now, answers, i);
  }

  lemma FiresNow(next: Search, h: History, now: int, answer: Answer)
    requires AlwaysFires(h) && Fires(answer) && DueAt(Stored(next, h), now)
    ensures var after := Polled(h, now, answer);
            && AlwaysFires(after) && SavedTime(after) == SavedTime(h) && LastMove(next, after) == now
            && |Firings(next, after)| == |Firings(next, h)| + 1
  {
  }

  lemma DueIffMatch(c: ParsedCron, offset: int, h: History, now: int)
    requires AlwaysFires(h) && WellFormed(c) && AllShapesHit(c)
    ensures DueAt(Stored(Cron(c, offset), h), now) <==>
            MatchSince(Matching(c, offset), LastMove(Cron(c, offset), h), now)
  {
    NeverDormant(c, offset, h);
    StoredSinceMove(Cron(c, offset), h);
    NextByIff(c, offset, LastMove(Cron(c, offset), h), now);
  }

  lemma DueInList(zones: Zones, rows: Rows, now: int, due: seq<string>, id: string, c: ParsedCron, offset: int)
    requires DueList(rows, now, due) && id in rows && RunsBy(zones, rows[id], c, offset)
    ensures id in due <==> DueAt(rows[id].nextRunAt, now)
  {
  }

  /** In a poll of the service in which nothing fails and nothing is active, a pipeline gets a run iff a matching
      minute has come since its last firing, or the save. */
  lemma CalmPollFires(zones: Zones, rows: Rows, due: seq<string>, now: int, answers: nat -> Answer, id: string,
                      c: ParsedCron, offset: int, h: History)
    returns (after: History)
    requires DueList(rows, now, due) && id in rows && RunsBy(zones, rows[id], c, offset)
    requires rows[id].nextRunAt == Stored(Cron(c, offset), h) && AlwaysFires(h)
    requires WellFormed(c) && AllShapesHit(c) && forall i :: 0 <= i < |due| ==> answers(i) == Answer(false, NoFault)
    ensures AlwaysFires(after) && SavedTime(after) == SavedTime(h)
    ensures var p := PollOf(rows, due, VisitsOf(zones, rows, due, now, answers), |due|);
            var fires := MatchSince(Matching(c, offset), LastMove(Cron(c, offset), h), now);
            && id in p.rows && p.rows[id] == rows[id].(nextRunAt := Stored(Cron(c, offset), after))
            && Times(p.started, id) == (if fires then 1 else 0)
            && LastMove(Cron(c, offset), after) == if fires then now else LastMove(Cron(c, offset), h)
  {
    var visited;
    after, visited := PollExtendsHistory(zones, rows, due, now, answers, id, c, offset, h);
    DueIffMatch(c, offset, h, now);
    DueInList(zones, rows, now, due, id, c, offset);
    if id in due {
      forall i | 0 <= i < |due| ensures VisitsOf(zones, rows, due, now, answers)[i].verdict != Threw {
        CalmVisit(zones, rows, due, now, answers, i);
      }
      FiresNow(Cron(c, offset), h, now, after.answer);
    }
  }

  lemma {:induction false} CalmServiceHistory(zones: Zones, s: Service, id: string, c: ParsedCron, offset: int, at: int)
    returns (h: History)
    requires ServedBy(zones, s).Some? && Calm(s) && id in FirstRows(s) && RunsBy(zones, FirstRows(s)[id], c, offset)
    requires FirstRows(s)[id].nextRunAt == Cron(c, offset)(at) && WellFormed(c) && AllShapesHit(c)
    ensures AlwaysFires(h) && LastMove(Cron(c, offset), h) == LastStart(zones, s, id, at)
    ensures var rows := ServedBy(zones, s).value.rows;
            id in rows && rows[id] == FirstRows(s)[id].(nextRunAt := Stored(Cron(c, offset), h))
    ensures s.Serves? ==>
              Times(StartedByLast(zones, s), id) ==
              if MatchSince(Matching(c, offset), LastStart(zones, s.past, id, at), s.now) then 1 else 0
  {
    match s
    case Began(_) => h := SavedAt(at);
    case Serves(past, due, now, answers) =>
      var earlier := CalmServiceHistory(zones, past, id, c, offset, at);
      var rows := ServedBy(zones, past).value.rows;
      RunsBySame(zones, FirstRows(s)[id], c, offset, rows[id].nextRunAt);
      h := CalmPollFires(zones, rows, due, now, answers, id, c, offset, earlier);
  }

  /** Over any run of calm polls of the service, each gives a pipeline a run iff a matching minute has come since its
      last run, or the save: never more often, as `ServiceNeverMoreOften` has it, and never less. */
  lemma ServiceFiresWheneverDue(zones: Zones, s: Service, id: string, c: ParsedCron, offset: int, at: int)
    requires s.Serves? && ServedBy(zones, s).Some? && Calm(s)
    requires id in FirstRows(s) && RunsBy(zones, FirstRows(s)[id], c, offset)
    requires FirstRows(s)[id].nextRunAt == Cron(c, offset)(at) && WellFormed(c) && AllShapesHit(c)
    ensures Times(StartedByLast(zones, s), id) ==
            if MatchSince(Matching(c, offset), LastStart(zones, s.past, id, at), s.now) then 1 else 0
  {
    var h := CalmServiceHistory(zones, s, id, c, offset, at);
  }
}
