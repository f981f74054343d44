/** Which requests are limited, route by route. */
module RateLimitRoutes {
  import opened Common
  import opened Text
  import opened RateLimitRules

  /** The routes in the order of the table; `id` stands for the free path segment of the last four. */
  function Route(i: nat, id: string): string
    requires i < 7
  {
    match i
    case 0 => "/auth/register"
    case 1 => "/auth/login"
    case 2 => "/auth/refresh"
    case 3 => "/webhooks/" + id + "/events"
    case 4 => "/pipelines/" + id + "/runs"
    case 5 => "/pipelines/" + id + "/preview"
    case _ => "/pipelines/" + id + "/schedule/trigger"
  }

  predicate IsId(id: string) {
    id != "" && '/' !in id && '?' !in id
  }

  predicate IsQuery(query: string) {
    query == "" || query[0] == '?'
  }

  /** A path for the i-th route, plain or behind the global prefix, with or without a query. */
  predicate Reads(path: string, i: nat, id: string, query: string)
    requires i < 7
  {
    IsId(id) && IsQuery(query) && (path == Route(i, id) + query || path == "/api" + Route(i, id) + query)
  }

  ghost predicate IsFor(path: string, i: nat)
    requires i < 7
  {
    exists id, query :: Reads(path, i, id, query)
  }

  // ----- the query and the prefix -----

  lemma {:induction false} BeforeMark(path: string, sep: char)
    ensures var head := Split(path, sep)[0];
            && head <= path && sep !in head && (|head| < |path| ==> path[|head|] == sep)
  {
    if path != "" && path[0] != sep {
      BeforeMark(path[1..], sep);
      var head := Split(path[1..], sep)[0];
      assert Split(path, sep)[0] == [path[0]] + head;
      assert path == [path[0]] + path[1..];
    }
  }

  lemma CutAtMark(path: string, head: string, query: string)
    requires path == head + query && '?' !in head && IsQuery(query)
    ensures Split(path, '?')[0] == head
  {
    if query == "" {
      assert path == head;
      SplitWithout(head, '?');
    } else {
      assert path == head + ['?'] + query[1..];
      SplitFirst(head, query[1..], '?');
    }
  }

  /** The i-th template matches exactly the paths of its route. */
  ghost predicate IsRoute(i: nat, path: string)
    requires i < 7
  {
    exists id :: id != "" && '/' !in id && path == Route(i, id)
  }

  lemma FreeSegment(prefix: string, suffix: string, path: string)
    ensures Matches(OneSegment(prefix, suffix), path) <==>
            exists id :: id != "" && '/' !in id && path == prefix + id + suffix
  {
    if Matches(OneSegment(prefix, suffix), path) {
      var id := path[|prefix|..|path| - |suffix|];
      assert path == prefix + id + suffix;
    }
    if id :| id != "" && '/' !in id && path == prefix + id + suffix {
      assert path[|prefix|..|path| - |suffix|] == id;
    }
  }

  lemma TemplateMeaning(i: nat, path: string)
    requires i < 7
    ensures Matches(RATE_LIMIT_RULES[i].template, path) <==> IsRoute(i, path)
  {
    match RATE_LIMIT_RULES[i].template
    case Exact(p) =>
      assert "x" != "" && '/' !in "x";
    case OneSegment(prefix, suffix) =>
      FreeSegment(prefix, suffix, path);
  }

  lemma RouteIsPlain(i: nat, id: string)
    requires i < 7 && (i >= 3 ==> '?' !in id)
    ensures var path := Route(i, id); '?' !in path && path != "" && path[0] == '/' && !("/api/" <= path)
  {
    var path := Route(i, id);
    assert path[1] != 'a' || path[2] != 'p';
  }

  lemma FromRoute(i: nat, id: string, query: string, path: string)
    requires i < 7 && Reads(path, i, id, query)
    ensures NormalizePath(path) == Route(i, id)
  {
    var plain := Route(i, id);
    RouteIsPlain(i, id);
    if path == plain + query {
      CutAtMark(path, plain, query);
    } else {
      CutAtMark(path, "/api" + plain, query);
      assert ("/api" + plain)[..5] == "/api/";
    }
  }

  lemma IdInRoute(i: nat, id: string)
    requires i < 7 && '?' !in Route(i, id)
    ensures i >= 3 ==> '?' !in id
  {
  }

  lemma ToRoute(i: nat, id: string, path: string) returns (other: string, query: string)
    requires i < 7 && id != "" && '/' !in id && NormalizePath(path) == Route(i, id)
    ensures Reads(path, i, other, query)
  {
    BeforeMark(path, '?');
    var head := Split(path, '?')[0];
    query := path[|head|..];
    assert path == head + query;
    assert forall k :: 0 <= k < |NormalizePath(path)| ==> NormalizePath(path)[k] in head;
    IdInRoute(i, id);
    other := if i < 3 then "x" else id;
    assert Route(i, other) == Route(i, id);
    if "/api/" <= head {
      assert head == "/api" + head[4..];
    }
  }

  lemma NormalizedIff(path: string, i: nat)
    requires i < 7
    ensures IsRoute(i, NormalizePath(path)) <==> IsFor(path, i)
  {
    if id :| id != "" && '/' !in id && NormalizePath(path) == Route(i, id) {
      var other, query := ToRoute(i, id, path);
    }
    if id, query :| Reads(path, i, id, query) {
      FromRoute(i, id, query, path);
    }
  }

  // ----- which rule applies -----

  lemma AppliesIff(i: nat, verb: string, path: string)
    requires i < 7
    ensures Applies(RATE_LIMIT_RULES[i], verb, path) <==> verb == "POST" && IsFor(path, i)
  {
    TemplateMeaning(i, NormalizePath(path));
    NormalizedIff(path, i);
  }

  lemma {:induction false} FindsApplying(rules: seq<Rule>, verb: string, path: string)
    ensures FindRule(rules, verb, path).None? <==> forall rule :: rule in rules ==> !Applies(rule, verb, path)
  {
    if rules != [] {
      FindsApplying(rules[1..], verb, path);
      assert rules == [rules[0]] + rules[1..];
    }
  }

  /** A request is limited by the i-th rule iff it is a POST to the i-th route; so it is unlimited iff it is a POST
      to none of them or no POST. */
  lemma LimitedIff(i: nat, verb: string, path: string)
    requires i < 7
    ensures FindRule(RATE_LIMIT_RULES, verb, path) == Some(RATE_LIMIT_RULES[i]) <==> verb == "POST" && IsFor(path, i)
    ensures FindRule(RATE_LIMIT_RULES, verb, path).None? <==>
            verb != "POST" || forall j :: 0 <= j < 7 ==> !IsFor(path, j)
  {
    FindsApplying(RATE_LIMIT_RULES, verb, path);
    forall j | 0 <= j < 7
      ensures Applies(RATE_LIMIT_RULES[j], verb, path) <==> verb == "POST" && IsFor(path, j)
      ensures RATE_LIMIT_RULES[j] in RATE_LIMIT_RULES
    {
      AppliesIff(j, verb, path);
    }
    var found := FindRule(RATE_LIMIT_RULES, verb, path);
    if found.Some? && verb == "POST" && IsFor(path, i) {
      AtMostOneRule(found.value, RATE_LIMIT_RULES[i], verb, path);
    }
  }
}
