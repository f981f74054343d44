/** The fixed-window limiter: one bucket a key, deleted lazily once its window is over. */
module RateLimiter {
  import opened Common
  import opened RateLimitRules

  datatype Bucket = Bucket(count: nat, resetAt: int)

  /** What the client sees: no limit applies, or the headers of an admitted or a refused request. */
  datatype Outcome =
    | Unlimited
    | Admitted(limit: nat, remaining: nat, reset: int)
    | Rejected(limit: nat, remaining: nat, reset: int, retryAfter: int)

  datatype Limiter = Limiter(counters: map<string, Bucket>, lastCleanupAt: int)

  const CLEANUP_INTERVAL_MS := 30000

  function Lookup(counters: map<string, Bucket>, key: string): Option<Bucket> {
    if key in counters then Some(counters[key]) else None
  }

  /** The bucket after counting one request: a new window if there is none or it is over. */
  function Counted(existing: Option<Bucket>, rule: Rule, now: int): Bucket {
    if existing.None? || existing.value.resetAt <= now then Bucket(1, now + rule.windowMs)
    else Bucket(existing.value.count + 1, existing.value.resetAt)
  }

  function CeilSeconds(ms: int): int {
    (ms + 999) / 1000
  }

  function Decide(bucket: Bucket, rule: Rule, now: int): Outcome {
    var remaining := if rule.limit > bucket.count then rule.limit - bucket.count else 0;
    var reset := bucket.resetAt / 1000;
    if bucket.count > rule.limit then
      var seconds := CeilSeconds(bucket.resetAt - now);
      Rejected(rule.limit, remaining, reset, if seconds > 1 then seconds else 1)
    else Admitted(rule.limit, remaining, reset)
  }

  function Cleaned(l: Limiter, now: int): Limiter {
    if now - l.lastCleanupAt < CLEANUP_INTERVAL_MS then l
    else Limiter(map k | k in l.counters && l.counters[k].resetAt > now :: l.counters[k], now)
  }

  /** One request: cleanup reads the clock first, the decision reads it again. */
  function Step(l: Limiter, r: Request): (Limiter, Outcome) {
    var cleaned := Cleaned(l, r.cleanupClock);
    var bucket := Counted(Lookup(cleaned.counters, r.Key()), r.rule, r.clock);
    (cleaned.(counters := cleaned.counters[r.Key() := bucket]), Decide(bucket, r.rule, r.clock))
  }

  datatype Request = Request(rule: Rule, ip: string, cleanupClock: int, clock: int) {
    function Key(): string { KeyOf(rule, ip) }
  }

  class RateLimitMiddleware {
    var counters: map<string, Bucket>
    var lastCleanupAt: int
    const disabled: bool

    constructor (testEnvironment: bool)
      ensures State() == Limiter(map[], 0) && disabled == testEnvironment
    {
      counters := map[];
      lastCleanupAt := 0;
      disabled := testEnvironment;
    }

    function State(): Limiter
      reads this
    {
      Limiter(counters, lastCleanupAt)
    }

    /** The rule that `Use` limits by, if any. */
    function Limiting(verb: string, path: string): Option<Rule> {
      if disabled then None else FindRule(RATE_LIMIT_RULES, verb, path)
    }

    method Use(verb: string, path: string, ip: Option<string>, cleanupClock: int, clock: int)
      returns (outcome: Outcome)
      modifies this
      ensures Limiting(verb, path).None? ==> outcome == Unlimited && State() == old(State())
      ensures Limiting(verb, path).Some? ==>
                (State(), outcome) == Step(old(State()),
                  Request(Limiting(verb, path).value, ip.GetOr("unknown"), cleanupClock, clock))
    {
      if disabled {
        return Unlimited;
      }
      var rule := FindRule(RATE_LIMIT_RULES, verb, path);
      if rule.None? {
        return Unlimited;
      }
      outcome := Count(rule.value, ip.GetOr("unknown"), cleanupClock, clock);
    }

    /** The part of `use` after the rule is known. */
    method Count(rule: Rule, client: string, cleanupClock: int, clock: int) returns (outcome: Outcome)
      modifies this
      ensures (State(), outcome) == Step(old(State()), Request(rule, client, cleanupClock, clock))
    {
      CleanupExpiredBuckets(cleanupClock);
      var key := KeyOf(rule, client);
      var existing := Lookup(counters, key);
      var bucket := existing.GetOr(Bucket(0, 0));
      if existing.None? || existing.value.resetAt <= clock {
        bucket := Bucket(0, clock + rule.windowMs);
      }
      bucket := bucket.(count := bucket.count + 1);
      counters := counters[key := bucket];
      outcome := Decide(bucket, rule, clock);
    }

    method CleanupExpiredBuckets(now: int)
      modifies this
      ensures State() == Cleaned(old(State()), now)
    {
      if now - lastCleanupAt < CLEANUP_INTERVAL_MS {
        return;
      }
      lastCleanupAt := now;
      var todo := counters.Keys;
      while todo != {}
        invariant lastCleanupAt == now
        invariant todo <= old(counters).Keys
        invariant forall k :: k in counters <==>
                    k in old(counters) && (k in todo || old(counters)[k].resetAt > now)
        invariant forall k :: k in counters ==> counters[k] == old(counters)[k]
      {
        var key :| key in todo;
        if counters[key].resetAt <= now {
          counters := counters - {key};
        }
        todo := todo - {key};
      }
    }
  }

  // ----- histories -----

  /** The requests that a limiter has served, the latest outermost. */
  datatype History = Start | After(past: History, r: Request)

  /** Rules come from the table, and clock readings never go back within or between requests. */
  predicate Clocked(h: History, table: seq<Rule>) {
    h.After? ==>
      && h.r.rule in table && h.r.cleanupClock <= h.r.clock
      && (h.past.After? ==> h.past.r.clock <= h.r.cleanupClock)
      && Clocked(h.past, table)
  }

  function StateAfter(h: History): Limiter {
    match h
    case Start => Limiter(map[], 0)
    case After(past, r) => Step(StateAfter(past), r).0
  }

  /** What the latest request of a history was told. */
  function OutcomeOf(h: History): Outcome
    requires h.After?
  {
    Step(StateAfter(h.past), h.r).1
  }

  /** The counters of a limiter that never deletes a bucket. */
  function KeptAfter(h: History): map<string, Bucket> {
    match h
    case Start => map[]
    case After(past, r) =>
      KeptAfter(past)[r.Key() := Counted(Lookup(KeptAfter(past), r.Key()), r.rule, r.clock)]
  }

  function KeptOutcomeOf(h: History): Outcome
    requires h.After?
  {
    Decide(Counted(Lookup(KeptAfter(h.past), h.r.Key()), h.r.rule, h.r.clock), h.r.rule, h.r.clock)
  }

  /** The cleaned counters agree with the kept ones, but for windows that are over. */
  ghost predicate Agree(l: Limiter, kept: map<string, Bucket>, now: int) {
    && (forall k :: k in l.counters ==> k in kept && kept[k] == l.counters[k])
    && (forall k :: k in kept && k !in l.counters ==> kept[k].resetAt <= now)
  }

  lemma CleanAgrees(l: Limiter, kept: map<string, Bucket>, now: int)
    requires Agree(l, kept, now)
    ensures Agree(Cleaned(l, now), kept, now)
  {
  }

  lemma {:induction false} StatesAgree(table: seq<Rule>, h: History, now: int)
    requires Clocked(h, table) && (h.After? ==> h.r.clock <= now)
    ensures Agree(StateAfter(h), KeptAfter(h), now)
  {
    if h.Start? {
    } else {
      StatesAgree(table, h.past, h.r.cleanupClock);
      CleanAgrees(StateAfter(h.past), KeptAfter(h.past), h.r.cleanupClock);
    }
  }

  /** Deleting expired buckets cannot be observed: every request gets the decision and the headers of a
      limiter that never deletes. */
  lemma CleanupUnobservable(table: seq<Rule>, h: History)
    requires Clocked(h, table) && h.After?
    ensures OutcomeOf(h) == KeptOutcomeOf(h)
  {
    StatesAgree(table, h.past, h.r.cleanupClock);
    CleanAgrees(StateAfter(h.past), KeptAfter(h.past), h.r.cleanupClock);
  }

  // ----- one client and rule at a time -----

  /** The history reduced to the requests of one rule and client. */
  function OnlyOf(h: History, rule: Rule, ip: string): History {
    match h
    case Start => Start
    case After(past, r) =>
      if r.rule == rule && r.ip == ip then After(OnlyOf(past, rule, ip), r) else OnlyOf(past, rule, ip)
  }

  lemma {:induction false} OnlyIsClocked(table: seq<Rule>, h: History, rule: Rule, ip: string)
    requires Clocked(h, table)
    ensures var only := OnlyOf(h, rule, ip);
            Clocked(only, table) && (only.After? ==> h.After? && only.r.clock <= h.r.clock)
  {
    match h
    case Start =>
    case After(past, _) => OnlyIsClocked(table, past, rule, ip);
  }

  lemma {:induction false} OwnBucket(table: seq<Rule>, h: History, rule: Rule, ip: string)
    requires GoodTable(table) && Clocked(h, table) && rule in table
    ensures Lookup(KeptAfter(OnlyOf(h, rule, ip)), KeyOf(rule, ip)) == Lookup(KeptAfter(h), KeyOf(rule, ip))
  {
    match h
    case Start =>
    case After(past, r) =>
      OwnBucket(table, past, rule, ip);
      if r.Key() == KeyOf(rule, ip) {
        KeysInjective(table, r.rule, rule, r.ip, ip);
      }
  }

  /** Other clients and other rules never interfere: every request gets the decision and the headers that it would
      get if its own client's requests under its own rule were the only ones there ever were. */
  lemma OthersNeverInterfere(table: seq<Rule>, h: History)
    requires GoodTable(table) && Clocked(h, table) && h.After?
    ensures OnlyOf(h, h.r.rule, h.r.ip).After?
    ensures OutcomeOf(h) == OutcomeOf(OnlyOf(h, h.r.rule, h.r.ip))
  {
    var rule, ip := h.r.rule, h.r.ip;
    OwnBucket(table, h.past, rule, ip);
    OnlyIsClocked(table, h, rule, ip);
    CleanupUnobservable(table, h);
    CleanupUnobservable(table, OnlyOf(h, rule, ip));
  }

  // ----- the sliding bound -----

  /** The admitted requests of a key with a decision clock in the closed interval from a to b. */
  function AdmittedWithin(h: History, key: string, a: int, b: int): nat {
    match h
    case Start => 0
    case After(past, r) =>
      AdmittedWithin(past, key, a, b) +
      if r.Key() == key && a <= r.clock <= b && OutcomeOf(h).Admitted? then 1 else 0
  }

  function Min(a: nat, b: nat): nat { if a < b then a else b }

  /** What the count of admitted requests can be, given the bucket that the key has now. */
  ghost predicate Bounded(bucket: Option<Bucket>, rule: Rule, count: nat, a: int, now: int) {
    var b := a + rule.windowMs;
    && (now < a ==> count == 0)
    && match bucket
       case None => count == 0
       case Some(k) =>
         var start := k.resetAt - rule.windowMs;
         && k.count >= 1 && start <= now
         && (k.resetAt <= a ==> count == 0)
         && (start <= a ==> count <= Min(k.count, rule.limit))
         && (a < start <= b ==> count <= rule.limit + Min(k.count, rule.limit))
         && count <= 2 * rule.limit
  }

  /** One more request of the key keeps the bound. */
  lemma CountKeepsBound(bucket: Option<Bucket>, rule: Rule, count: nat, a: int, now: int, clock: int)
    requires rule.limit >= 1 && rule.windowMs >= 1 && Bounded(bucket, rule, count, a, now) && now <= clock
    ensures var next := Counted(bucket, rule, clock);
            var hit := a <= clock <= a + rule.windowMs && Decide(next, rule, clock).Admitted?;
            Bounded(Some(next), rule, count + (if hit then 1 else 0), a, clock)
  {
  }

  lemma {:induction false} HistoryBounded(table: seq<Rule>, h: History, rule: Rule, ip: string, a: int, now: int)
    requires GoodTable(table) && Clocked(h, table) && rule in table
    requires if h.After? then h.r.clock == now else now < a
    ensures Bounded(Lookup(KeptAfter(h), KeyOf(rule, ip)), rule,
                    AdmittedWithin(h, KeyOf(rule, ip), a, a + rule.windowMs), a, now)
  {
    if h.Start? {
    } else {
      var past, r, key := h.past, h.r, KeyOf(rule, ip);
      var earlier := if past.After? then past.r.clock else if r.clock < a then r.clock else a - 1;
      HistoryBounded(table, past, rule, ip, a, earlier);
      CleanupUnobservable(table, h);
      if r.Key() == key {
        KeysInjective(table, r.rule, rule, r.ip, ip);
        CountKeepsBound(Lookup(KeptAfter(past), key), rule, AdmittedWithin(past, key, a, a + rule.windowMs),
                        a, earlier, r.clock);
      }
    }
  }

  /** Over any history, a closed interval as long as the window admits at most twice the limit. */
  lemma SlidingBound(table: seq<Rule>, h: History, rule: Rule, ip: string, a: int)
    requires GoodTable(table) && Clocked(h, table) && rule in table
    ensures AdmittedWithin(h, KeyOf(rule, ip), a, a + rule.windowMs) <= 2 * rule.limit
  {
    HistoryBounded(table, h, rule, ip, a, if h.After? then h.r.clock else a - 1);
  }

  // ----- the bound is reached -----

  function Burst(h: History, r: Request, n: nat): History {
    if n == 0 then h else After(Burst(h, r, n - 1), r)
  }

  lemma AdmittedNext(table: seq<Rule>, past: History, r: Request, n: nat, a: int)
    requires Clocked(After(past, r), table) && 1 <= n <= r.rule.limit && a <= r.clock <= a + r.rule.windowMs
    requires Counted(Lookup(KeptAfter(past), r.Key()), r.rule, r.clock) == Bucket(n, r.clock + r.rule.windowMs)
    ensures Lookup(KeptAfter(After(past, r)), r.Key()) == Some(Bucket(n, r.clock + r.rule.windowMs))
    ensures AdmittedWithin(After(past, r), r.Key(), a, a + r.rule.windowMs)
            == AdmittedWithin(past, r.Key(), a, a + r.rule.windowMs) + 1
  {
    CleanupUnobservable(table, After(past, r));
  }

  /** A burst at one instant, on a key whose window is over, fills a new window. */
  lemma {:induction false} BurstFills(table: seq<Rule>, h: History, r: Request, n: nat, a: int)
    requires Clocked(h, table) && (h.After? ==> h.r.clock <= r.cleanupClock)
    requires r.rule in table && r.rule.windowMs >= 1 && 1 <= n <= r.rule.limit
    requires r.cleanupClock == r.clock && a <= r.clock <= a + r.rule.windowMs
    requires r.Key() in KeptAfter(h) ==> KeptAfter(h)[r.Key()].resetAt <= r.clock
    ensures var after := Burst(h, r, n);
            && after.After? && after.r == r && Clocked(after, table)
            && Lookup(KeptAfter(after), r.Key()) == Some(Bucket(n, r.clock + r.rule.windowMs))
            && AdmittedWithin(after, r.Key(), a, a + r.rule.windowMs)
               == AdmittedWithin(h, r.Key(), a, a + r.rule.windowMs) + n
  {
    if n == 1 {
      assert Burst(h, r, n - 1) == h;
    } else {
      BurstFills(table, h, r, n - 1, a);
    }
    AdmittedNext(table, Burst(h, r, n - 1), r, n, a);
  }

  /** The bound of `SlidingBound` cannot be lowered: two bursts, a window apart, reach it. */
  lemma SlidingBoundReached(table: seq<Rule>, rule: Rule, ip: string)
    requires GoodTable(table) && rule in table
    ensures exists h :: Clocked(h, table)
                        && AdmittedWithin(h, KeyOf(rule, ip), 0, 0 + rule.windowMs) == 2 * rule.limit
  {
    var first := Request(rule, ip, 0, 0);
    var second := Request(rule, ip, rule.windowMs, rule.windowMs);
    BurstFills(table, Start, first, rule.limit, 0);
    var h := Burst(Start, first, rule.limit);
    BurstFills(table, h, second, rule.limit, 0);
  }

  // ----- waiting as long as Retry-After says -----

  /** The announced number of seconds is the least whole number, at least 1, that reaches the reset. */
  lemma RetryAfterIsTight(bucket: Bucket, rule: Rule, now: int)
    requires Decide(bucket, rule, now).Rejected? && bucket.resetAt > now
    ensures var s := Decide(bucket, rule, now).retryAfter;
            s >= 1 && (s - 1) * 1000 < bucket.resetAt - now <= s * 1000
  {
  }

  /** `h` continues `from`, and every request of the key since then was refused. */
  ghost predicate OnlyRefusedSince(h: History, from: History, key: string) {
    h == from ||
    (h.After? && (h.r.Key() == key ==> OutcomeOf(h).Rejected?) && OnlyRefusedSince(h.past, from, key))
  }

  /** While every request of the key is refused, its window is not moved. */
  lemma {:induction false} RefusedNeverMoveReset(table: seq<Rule>, h: History, from: History, rule: Rule, ip: string)
    requires GoodTable(table) && Clocked(h, table) && rule in table
    requires KeyOf(rule, ip) in KeptAfter(from) && OnlyRefusedSince(h, from, KeyOf(rule, ip))
    ensures var key := KeyOf(rule, ip);
            key in KeptAfter(h) && KeptAfter(h)[key].resetAt == KeptAfter(from)[key].resetAt
  {
    if h == from {
    } else {
      RefusedNeverMoveReset(table, h.past, from, rule, ip);
      CleanupUnobservable(table, h);
      if h.r.Key() == KeyOf(rule, ip) {
        KeysInjective(table, h.r.rule, rule, h.r.ip, ip);
      }
    }
  }

  /** A refused client that waits Retry-After seconds, without a request of its own being admitted in
      between, finds its window over: the next request opens a fresh one. */
  lemma WaitingReachesFreshWindow(table: seq<Rule>, refused: History, h: History, next: Request)
    requires GoodTable(table) && refused.After? && Clocked(refused, table) && Clocked(After(h, next), table)
    requires OutcomeOf(refused).Rejected? && OnlyRefusedSince(h, refused, refused.r.Key())
    requires next.Key() == refused.r.Key()
    requires next.clock >= refused.r.clock + 1000 * OutcomeOf(refused).retryAfter
    ensures OutcomeOf(After(h, next)).Admitted?
    ensures KeptAfter(After(h, next))[next.Key()] == Bucket(1, next.clock + next.rule.windowMs)
  {
    var r := refused.r;
    KeysInjective(table, next.rule, r.rule, next.ip, r.ip);
    CleanupUnobservable(table, refused);
    RetryAfterIsTight(KeptAfter(refused)[r.Key()], r.rule, r.clock);
    RefusedNeverMoveReset(table, h, refused, r.rule, r.ip);
    CleanupUnobservable(table, After(h, next));
  }

  // ----- the headers -----

  ghost predicate Continues(h: History, from: History) {
    h == from || (h.After? && Continues(h.past, from))
  }

  /** The requests of a key since then. */
  function CountSince(h: History, from: History, key: string): nat {
    if h == from || h.Start? then 0 else CountSince(h.past, from, key) + if h.r.Key() == key then 1 else 0
  }

  lemma {:induction false} BucketSince(table: seq<Rule>, h: History, from: History, key: string)
    requires Clocked(h, table) && Continues(h, from) && key in KeptAfter(from)
    requires h != from ==> h.r.clock < KeptAfter(from)[key].resetAt
    ensures Lookup(KeptAfter(h), key) ==
            Some(Bucket(KeptAfter(from)[key].count + CountSince(h, from, key), KeptAfter(from)[key].resetAt))
  {
    if h != from {
      BucketSince(table, h.past, from, key);
    }
  }

  lemma KeptOutcome(table: seq<Rule>, h: History)
    requires Clocked(h, table) && h.After?
    ensures h.r.Key() in KeptAfter(h) && OutcomeOf(h) == Decide(KeptAfter(h)[h.r.Key()], h.r.rule, h.r.clock)
  {
    CleanupUnobservable(table, h);
  }

  lemma DecideSame(bucket: Bucket, later: Bucket, rule: Rule, clock: int, laterClock: int, k: nat)
    requires bucket.count >= 1 && later.count == bucket.count + k + 1
    ensures Decide(later, rule, laterClock).Admitted? <==> k < Decide(bucket, rule, clock).remaining
  {
  }

  /** The headers are true: the limit is the rule's, the reset is the second in which the window ends, and until
      then exactly `remaining` more requests of the key are admitted, whatever else is requested. */
  lemma HeadersAreTrue(table: seq<Rule>, from: History, h: History, next: Request)
    requires GoodTable(table) && from.After? && Clocked(After(h, next), table) && Clocked(from, table)
    requires Continues(h, from) && next.Key() == from.r.Key()
    ensures var told := OutcomeOf(from);
            && from.r.Key() in KeptAfter(from)
            && var resetAt := KeptAfter(from)[from.r.Key()].resetAt;
               && told.limit == from.r.rule.limit && 1000 * told.reset <= resetAt < 1000 * told.reset + 1000
               && (next.clock < resetAt ==>
                     (OutcomeOf(After(h, next)).Admitted? <==> CountSince(h, from, from.r.Key()) < told.remaining))
  {
    var key, after := from.r.Key(), After(h, next);
    KeysInjective(table, next.rule, from.r.rule, next.ip, from.r.ip);
    KeptOutcome(table, from);
    KeptOutcome(table, after);
    if next.clock < KeptAfter(from)[key].resetAt {
      BucketSince(table, h, from, key);
      DecideSame(KeptAfter(from)[key], KeptAfter(after)[key], next.rule, from.r.clock, next.clock,
                 CountSince(h, from, key));
    }
  }
}
