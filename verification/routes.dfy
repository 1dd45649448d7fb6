/**
 Route resolution (`routes.ts`): which configured entry governs a request
 path, and the limit that results from merging it over the global one.

 Resolution has three tiers, tried in order: an exact entry (first in
 declaration order), then the most specific validated wildcard entry that
 matches (earliest on ties, as a stable sort leaves it), then the entry with
 the longest path that is a prefix of the request path (earliest on ties).
 */
module Routes {
  import opened Options
  import opened Strings
  import opened Patterns
  import opened Config

  /** `extractRoutePaths`: the path of every entry, in order. */
  function ExtractRoutePaths(routes: seq<Route>): (paths: seq<string>)
    ensures |paths| == |routes|
    ensures forall i :: 0 <= i < |routes| ==> paths[i] == routes[i].path
  {
    seq(|routes|, i requires 0 <= i < |routes| => routes[i].path)
  }

  /** An entry that names the path exactly: a bare string, or an object not flagged as a pattern. */
  predicate IsExact(r: Route, path: string) {
    match r
    case Str(p) => p == path
    case Obj(p, pattern, _, _, _) => pattern != Some(true) && p == path
  }

  /** An object flagged `pattern: true` whose pattern validates and matches the path. */
  predicate IsPatternHit(r: Route, path: string) {
    && r.Obj? && r.pattern == Some(true)
    && ValidatePattern(r.path) && InDomain(r.path)
    && MatchesPattern(r.path, path)
  }

  /** An entry of either form, pattern-flagged or not, whose raw path text starts the request path. */
  predicate IsPrefixHit(r: Route, path: string) {
    StartsWith(path, r.path)
  }

  /**
   Every validated pattern entry lies in the matcher's domain. The source
   accepts others too, but then hands a regex with stray quantifiers to the
   JavaScript engine, which this model does not interpret.
   */
  predicate RoutesInDomain(routes: seq<Route>) {
    forall i :: 0 <= i < |routes| && routes[i].Obj? && routes[i].pattern == Some(true) && ValidatePattern(routes[i].path) ==>
      InDomain(routes[i].path)
  }

  /** The first exact entry at or after `from`. */
  function FirstExact(routes: seq<Route>, path: string, from: nat): (r: Option<nat>)
    requires from <= |routes|
    ensures r.Some? ==> from <= r.value < |routes| && IsExact(routes[r.value], path)
    ensures r.Some? ==> forall j :: from <= j < r.value ==> !IsExact(routes[j], path)
    ensures r.None? <==> forall j :: from <= j < |routes| ==> !IsExact(routes[j], path)
    decreases |routes| - from
  {
    if from == |routes| then None
    else if IsExact(routes[from], path) then Some(from)
    else FirstExact(routes, path, from + 1)
  }

  /**
   The first index at or after `from` whose score is highest, skipping the
   indices with no score; none when no index has a score.
   */
  function FirstMax(scores: seq<Option<int>>, from: nat): (r: Option<nat>)
    requires from <= |scores|
    ensures r.Some? ==> from <= r.value < |scores| && scores[r.value].Some?
    ensures r.Some? ==> forall j :: from <= j < |scores| && scores[j].Some? ==> scores[j].value <= scores[r.value].value
    ensures r.Some? ==> forall j :: from <= j < r.value && scores[j].Some? ==> scores[j].value < scores[r.value].value
    ensures r.None? <==> forall j :: from <= j < |scores| ==> scores[j].None?
    decreases |scores| - from
  {
    if from == |scores| then None
    else
      var rest := FirstMax(scores, from + 1);
      if scores[from].Some? && (rest.None? || scores[rest.value].value <= scores[from].value)
      then Some(from)
      else rest
  }

  /** Each entry's specificity when it is a pattern hit. */
  function PatternScores(routes: seq<Route>, path: string): (scores: seq<Option<int>>)
    ensures |scores| == |routes|
    ensures forall i :: 0 <= i < |routes| ==> (scores[i].Some? <==> IsPatternHit(routes[i], path))
    ensures forall i :: 0 <= i < |routes| && scores[i].Some? ==> scores[i].value == Specificity(routes[i].path)
  {
    seq(|routes|, i requires 0 <= i < |routes| =>
      if IsPatternHit(routes[i], path) then Some(Specificity(routes[i].path)) else None)
  }

  /** Each entry's path length when it is a prefix hit. */
  function PrefixScores(routes: seq<Route>, path: string): (scores: seq<Option<int>>)
    ensures |scores| == |routes|
    ensures forall i :: 0 <= i < |routes| ==> (scores[i].Some? <==> IsPrefixHit(routes[i], path))
    ensures forall i :: 0 <= i < |routes| && scores[i].Some? ==> scores[i].value == |routes[i].path|
  {
    seq(|routes|, i requires 0 <= i < |routes| =>
      if IsPrefixHit(routes[i], path) then Some(|routes[i].path|) else None)
  }

  /**
   The pattern tier: among the pattern hits, the first one of highest
   specificity. Sorting the hits by descending specificity with a stable
   sort and taking the head selects exactly this entry.
   */
  function BestPattern(routes: seq<Route>, path: string): (r: Option<nat>)
    ensures r.Some? ==> r.value < |routes| && IsPatternHit(routes[r.value], path)
    ensures r.Some? ==> forall j :: 0 <= j < |routes| && IsPatternHit(routes[j], path) ==>
                          Specificity(routes[j].path) <= Specificity(routes[r.value].path)
    ensures r.Some? ==> forall j :: 0 <= j < r.value && IsPatternHit(routes[j], path) ==>
                          Specificity(routes[j].path) < Specificity(routes[r.value].path)
    ensures r.None? <==> forall j :: 0 <= j < |routes| ==> !IsPatternHit(routes[j], path)
  {
    FirstMax(PatternScores(routes, path), 0)
  }

  /**
   The prefix tier: among the prefix hits, the first one with the longest
   path, as the source's `reduce` (which only replaces the running best by a
   strictly longer path) leaves it.
   */
  function LongestPrefix(routes: seq<Route>, path: string): (r: Option<nat>)
    ensures r.Some? ==> r.value < |routes| && IsPrefixHit(routes[r.value], path)
    ensures r.Some? ==> forall j :: 0 <= j < |routes| && IsPrefixHit(routes[j], path) ==>
                          |routes[j].path| <= |routes[r.value].path|
    ensures r.Some? ==> forall j :: 0 <= j < r.value && IsPrefixHit(routes[j], path) ==>
                          |routes[j].path| < |routes[r.value].path|
    ensures r.None? <==> forall j :: 0 <= j < |routes| ==> !IsPrefixHit(routes[j], path)
  {
    FirstMax(PrefixScores(routes, path), 0)
  }

  /** What an empty route list resolves to: a path-only object that overrides nothing. */
  const Placeholder: Route := Obj("", None, None, None, None)

  /**
   `findBestMatchingRoute`: the governing entry in object form, `Placeholder`
   for an empty list, `None` (the source's `null`) when no tier hits.
   */
  function FindBestMatchingRoute(path: string, routes: seq<Route>): (r: Option<Route>)
    requires RoutesInDomain(routes)
    ensures |routes| == 0 ==> r == Some(Placeholder)
    ensures r.Some? ==> r.value.Obj?
    // null exactly when the list is non-empty and no tier hits
    ensures r.None? <==>
              |routes| > 0
              && forall i :: 0 <= i < |routes| ==>
                   !IsExact(routes[i], path) && !IsPatternHit(routes[i], path) && !IsPrefixHit(routes[i], path)
  {
    if |routes| == 0 then Some(Placeholder)
    else
      match FirstExact(routes, path, 0)
      case Some(i) => Some(AsObject(routes[i]))
      case None =>
        match BestPattern(routes, path)
        case Some(i) => Some(routes[i])
        case None =>
          match LongestPrefix(routes, path)
          case Some(i) => Some(AsObject(routes[i]))
          case None => None
  }

  /** Tier 1: the first exact entry governs, whatever else the list holds. */
  lemma ExactTierWins(path: string, routes: seq<Route>, i: nat)
    requires RoutesInDomain(routes)
    requires i < |routes| && IsExact(routes[i], path)
    requires forall j :: 0 <= j < i ==> !IsExact(routes[j], path)
    ensures FindBestMatchingRoute(path, routes) == Some(AsObject(routes[i]))
  {
    var k := FirstExact(routes, path, 0);
    assert k.Some? && k.value == i;
  }

  /**
   Tier 2: with no exact entry, the pattern hit of highest specificity that
   comes first governs.
   */
  lemma PatternTierWins(path: string, routes: seq<Route>, i: nat)
    requires RoutesInDomain(routes)
    requires forall j :: 0 <= j < |routes| ==> !IsExact(routes[j], path)
    requires i < |routes| && IsPatternHit(routes[i], path)
    requires forall j :: 0 <= j < |routes| && IsPatternHit(routes[j], path) ==>
               Specificity(routes[j].path) <= Specificity(routes[i].path)
    requires forall j :: 0 <= j < i && IsPatternHit(routes[j], path) ==>
               Specificity(routes[j].path) < Specificity(routes[i].path)
    ensures FindBestMatchingRoute(path, routes) == Some(routes[i])
  {
    var e := FirstExact(routes, path, 0);
    assert e.None?;
    var k := BestPattern(routes, path);
    assert k.Some?;
    assert k.value == i;
  }

  /**
   Tier 3: with neither an exact entry nor a pattern hit, the longest prefix
   entry that comes first governs.
   */
  lemma PrefixTierWins(path: string, routes: seq<Route>, i: nat)
    requires RoutesInDomain(routes)
    requires forall j :: 0 <= j < |routes| ==> !IsExact(routes[j], path) && !IsPatternHit(routes[j], path)
    requires i < |routes| && IsPrefixHit(routes[i], path)
    requires forall j :: 0 <= j < |routes| && IsPrefixHit(routes[j], path) ==>
               |routes[j].path| <= |routes[i].path|
    requires forall j :: 0 <= j < i && IsPrefixHit(routes[j], path) ==>
               |routes[j].path| < |routes[i].path|
    ensures FindBestMatchingRoute(path, routes) == Some(AsObject(routes[i]))
  {
    var e := FirstExact(routes, path, 0);
    assert e.None?;
    var p := BestPattern(routes, path);
    assert p.None?;
    var k := LongestPrefix(routes, path);
    assert k.Some?;
    assert k.value == i;
  }

  /** `Object.assign({}, limit, route)`: each field the entry defines overrides the global one. */
  function Merge(limit: Limit, route: Route): (merged: Limit)
    ensures route.Str? ==> merged == limit
    ensures route.Obj? ==> merged.max == route.max.GetOr(limit.max)
    ensures route.Obj? ==> merged.duration == route.duration.GetOr(limit.duration)
    ensures route.Obj? ==> merged.ban == route.ban.GetOr(limit.ban)
  {
    match route
    case Str(_) => limit
    case Obj(_, _, max, duration, ban) =>
      Limit(max.GetOr(limit.max), duration.GetOr(limit.duration), ban.GetOr(limit.ban))
  }

  /** `getRouteLimit`: the global limit when nothing matches, else the matched entry merged over it. */
  function GetRouteLimit(path: string, config: ModuleOptions): (limit: Limit)
    requires RoutesInDomain(config.routes)
    // with no entries configured the placeholder carries no overrides
    ensures |config.routes| == 0 ==> limit == config.limit
    ensures FindBestMatchingRoute(path, config.routes).None? ==> limit == config.limit
    // whichever tier resolves the path, each field the entry sets wins, the rest stay global
    ensures FindBestMatchingRoute(path, config.routes).Some? ==>
              limit == Merge(config.limit, FindBestMatchingRoute(path, config.routes).value)
  {
    match FindBestMatchingRoute(path, config.routes)
    case None => config.limit
    case Some(route) => Merge(config.limit, route)
  }

  /** A path no entry governs gets the global limit unchanged. */
  lemma UngovernedPathGetsGlobalLimit(path: string, config: ModuleOptions)
    requires RoutesInDomain(config.routes)
    requires forall i :: 0 <= i < |config.routes| ==>
               !IsExact(config.routes[i], path) && !IsPatternHit(config.routes[i], path) && !IsPrefixHit(config.routes[i], path)
    ensures GetRouteLimit(path, config) == config.limit
    ensures !HasRouteLimit(path, config) <==> |config.routes| > 0
  {
  }

  /**
   The first entry naming the path exactly supplies every field it sets; the
   fields it leaves out come from the global limit.
   */
  lemma ExactRouteLimit(path: string, config: ModuleOptions, i: nat)
    requires RoutesInDomain(config.routes)
    requires i < |config.routes| && IsExact(config.routes[i], path)
    requires forall j :: 0 <= j < i ==> !IsExact(config.routes[j], path)
    ensures GetRouteLimit(path, config) == Merge(config.limit, config.routes[i])
    ensures config.routes[i].Obj? && config.routes[i].max.Some? ==>
              GetRouteLimit(path, config).max == config.routes[i].max.value
  {
    ExactTierWins(path, config.routes, i);
  }

  /** `hasRouteLimit`: some entry, or the empty-list placeholder, governs the path. */
  function HasRouteLimit(path: string, config: ModuleOptions): (has: bool)
    requires RoutesInDomain(config.routes)
    ensures |config.routes| == 0 ==> has
    ensures has <==> FindBestMatchingRoute(path, config.routes).Some?
  {
    FindBestMatchingRoute(path, config.routes) != None
  }
}
