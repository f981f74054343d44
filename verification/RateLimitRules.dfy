/** The rate-limit table, path matching, and the keys of the counter map. */
module RateLimitRules {
  import opened Common
  import opened Text

  /** The shapes of the path expressions in the table; one path segment is free in `OneSegment`. */
  datatype Template = Exact(path: string) | OneSegment(prefix: string, suffix: string)

  datatype Rule = Rule(name: string, verb: string, template: Template, limit: nat, windowMs: nat)

  const RATE_LIMIT_RULES: seq<Rule> := [
    Rule("auth_register", "POST", Exact("/auth/register"), 20, 60000),
    Rule("auth_login", "POST", Exact("/auth/login"), 20, 60000),
    Rule("auth_refresh", "POST", Exact("/auth/refresh"), 40, 60000),
    Rule("webhook_intake", "POST", OneSegment("/webhooks/", "/events"), 120, 60000),
    Rule("pipeline_runs", "POST", OneSegment("/pipelines/", "/runs"), 60, 60000),
    Rule("pipeline_preview", "POST", OneSegment("/pipelines/", "/preview"), 60, 60000),
    Rule("schedule_trigger", "POST", OneSegment("/pipelines/", "/schedule/trigger"), 40, 60000)]

  predicate EndsWith(s: string, suffix: string) {
    |suffix| <= |s| && s[|s| - |suffix|..] == suffix
  }

  predicate Matches(template: Template, path: string) {
    match template
    case Exact(p) => path == p
    case OneSegment(prefix, suffix) =>
      && |prefix| + |suffix| < |path|
      && prefix <= path && EndsWith(path, suffix)
      && '/' !in path[|prefix|..|path| - |suffix|]
  }

  function NormalizePath(path: string): string {
    var cleaned := Split(path, '?')[0];
    if "/api/" <= cleaned then cleaned[4..] else cleaned
  }

  predicate Applies(rule: Rule, verb: string, path: string) {
    rule.verb == verb && Matches(rule.template, NormalizePath(path))
  }

  function FindRule(rules: seq<Rule>, verb: string, path: string): (r: Option<Rule>)
    ensures r.Some? ==> r.value in rules && Applies(r.value, verb, path)
  {
    if rules == [] then None
    else if Applies(rules[0], verb, path) then Some(rules[0])
    else FindRule(rules[1..], verb, path)
  }

  function KeyOf(rule: Rule, ip: string): string {
    rule.name + ":" + ip
  }

  /** What the theorems need of a table: distinct names without a colon, and limits worth having. */
  predicate GoodTable(table: seq<Rule>) {
    && (forall i, j :: 0 <= i < j < |table| ==> table[i].name != table[j].name)
    && (forall i :: 0 <= i < |table| ==>
          ':' !in table[i].name && table[i].limit >= 1 && table[i].windowMs >= 1)
  }

  lemma NamesDiffer(i: nat, j: nat)
    requires i < 7 && j < 7 && RATE_LIMIT_RULES[i].name == RATE_LIMIT_RULES[j].name
    ensures i == j
  {
  }

  lemma RuleIsGood(i: nat)
    requires i < 7
    ensures var rule := RATE_LIMIT_RULES[i]; ':' !in rule.name && rule.limit >= 1 && rule.windowMs >= 1
  {
  }

  lemma TableIsGood()
    ensures GoodTable(RATE_LIMIT_RULES)
  {
    forall i, j | 0 <= i < j < 7 ensures RATE_LIMIT_RULES[i].name != RATE_LIMIT_RULES[j].name {
      if RATE_LIMIT_RULES[i].name == RATE_LIMIT_RULES[j].name { NamesDiffer(i, j); }
    }
    forall i | 0 <= i < 7
      ensures var rule := RATE_LIMIT_RULES[i]; ':' !in rule.name && rule.limit >= 1 && rule.windowMs >= 1
    {
      RuleIsGood(i);
    }
  }

  const MARKS := [('a', 'r'), ('a', 'n'), ('a', 'h'), ('w', 's'), ('p', 's'), ('p', 'w'), ('p', 'r')]

  lemma MarksDiffer(i: nat, j: nat)
    requires i < 7 && j < 7 && MARKS[i] == MARKS[j]
    ensures i == j
  {
  }

  /** The second and the last character of a path tell which rule can match it. */
  lemma PathMark(i: nat, path: string)
    requires i < 7 && Matches(RATE_LIMIT_RULES[i].template, path)
    ensures |path| >= 2
    ensures (path[1], path[|path| - 1]) == MARKS[i]
  {
  }

  lemma SamePathSameRule(i: nat, j: nat, path: string)
    requires i < 7 && Matches(RATE_LIMIT_RULES[i].template, path)
    requires j < 7 && Matches(RATE_LIMIT_RULES[j].template, path)
    ensures i == j
  {
    PathMark(i, path);
    PathMark(j, path);
    MarksDiffer(i, j);
  }

  /** At most one rule applies to a request, so the order of the table does not matter. */
  lemma AtMostOneRule(rule: Rule, other: Rule, verb: string, path: string)
    requires rule in RATE_LIMIT_RULES && other in RATE_LIMIT_RULES
    requires Applies(rule, verb, path) && Applies(other, verb, path)
    ensures rule == other
  {
    var i :| 0 <= i < |RATE_LIMIT_RULES| && RATE_LIMIT_RULES[i] == rule;
    var j :| 0 <= j < |RATE_LIMIT_RULES| && RATE_LIMIT_RULES[j] == other;
    var normalized := NormalizePath(path);
    SamePathSameRule(i, j, normalized);
  }

  lemma ColonSplits(left: string, right: string, ip: string, jp: string)
    requires ':' !in left && ':' !in right && left + ":" + ip == right + ":" + jp
    ensures left == right && ip == jp
  {
    SplitFirst(left, ip, ':');
    SplitFirst(right, jp, ':');
    assert left + [':'] + ip == right + [':'] + jp;
    assert Split(left + [':'] + ip, ':')[0] == left;
    assert (left + ":" + ip)[|left| + 1..] == ip;
    assert (right + ":" + jp)[|right| + 1..] == jp;
  }

  /** Keys of different clients or of different rules never collide. */
  lemma KeysInjective(table: seq<Rule>, rule: Rule, other: Rule, ip: string, jp: string)
    requires GoodTable(table) && rule in table && other in table
    requires KeyOf(rule, ip) == KeyOf(other, jp)
    ensures rule == other && ip == jp
  {
    ColonSplits(rule.name, other.name, ip, jp);
  }
}
