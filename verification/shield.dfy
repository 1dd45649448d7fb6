/**
 The request middleware (`middleware/shield.ts`): a path filter, the ban
 check and unban, and the counter logic, written inline against the global
 limit.
 */
module Shield {
  import opened Options
  import opened Strings
  import opened Storage
  import opened Config
  import opened Keys
  import opened BanGate
  import opened RateLimiting
  import Routes
  import PatternExamples
  import opened Patterns

  /** The address used when the request carries none. */
  const UnknownIP := "unKnownIP"

  /** `getRequestIP(event) || 'unKnownIP'`. */
  function ClientAddress(ip: Option<string>): (addr: string)
    ensures ip.Some? && ip.value != "" ==> addr == ip.value
    ensures ip.None? || ip.value == "" ==> addr == UnknownIP
    ensures addr != ""
  {
    if ip.Some? && ip.value != "" then ip.value else UnknownIP
  }

  /**
   The text `pathname.startsWith(route)` compares against: a string entry
   itself, and `"[object Object]"` for an object entry.
   */
  function RouteAsString(r: Route): (text: string)
    ensures r.Str? ==> text == r.path
    ensures r.Obj? ==> |text| > 0 && text[0] == '['
  {
    match r
    case Str(p) => p
    case Obj(_, _, _, _, _) => "[object Object]"
  }

  /**
   The route filter as written: an empty list admits all, otherwise some
   entry, coerced to a string, must start the path. On a rooted path only the
   string entries can ever admit it.
   */
  predicate RoutesAdmitAsWritten(pathname: string, routes: seq<Route>): (admits: bool)
    ensures |routes| == 0 ==> admits
    ensures StartsWith(pathname, "/") ==>
              (admits <==> |routes| == 0 || exists i :: 0 <= i < |routes| && routes[i].Str? && StartsWith(pathname, routes[i].path))
  {
    ObjectsNeverPrefixRooted(pathname, routes);
    |routes| == 0 || exists i :: 0 <= i < |routes| && StartsWith(pathname, RouteAsString(routes[i]))
  }

  /**
   The route filter as intended, `hasRouteLimit` of `routes.ts`: an empty
   list admits all, otherwise some entry must govern the path, either because
   its path starts the path (every exact entry does) or because it is a
   validated pattern entry whose pattern matches.
   */
  predicate RoutesAdmit(pathname: string, routes: seq<Route>): (admits: bool)
    ensures |routes| == 0 ==> admits
    ensures forall i :: 0 <= i < |routes| && Routes.IsExact(routes[i], pathname) ==> admits
  {
    ExactHitsArePrefixHits(pathname, routes);
    |routes| == 0
    || exists i :: 0 <= i < |routes| && (Routes.IsPrefixHit(routes[i], pathname) || Routes.IsPatternHit(routes[i], pathname))
  }

  /** An entry naming the path exactly also starts it. */
  lemma ExactHitsArePrefixHits(pathname: string, routes: seq<Route>)
    ensures forall i :: 0 <= i < |routes| && Routes.IsExact(routes[i], pathname) ==> Routes.IsPrefixHit(routes[i], pathname)
  {
    forall i | 0 <= i < |routes| && Routes.IsExact(routes[i], pathname)
      ensures Routes.IsPrefixHit(routes[i], pathname)
    {
      assert pathname[..|routes[i].path|] == pathname;
    }
  }

  /** No object entry, coerced to a string, starts a rooted path. */
  lemma ObjectsNeverPrefixRooted(pathname: string, routes: seq<Route>)
    ensures StartsWith(pathname, "/") ==>
              forall i :: 0 <= i < |routes| && routes[i].Obj? ==> !StartsWith(pathname, RouteAsString(routes[i]))
  {
    if StartsWith(pathname, "/") {
      forall i | 0 <= i < |routes| && routes[i].Obj?
        ensures !StartsWith(pathname, RouteAsString(routes[i]))
      {
        ObjectNeverPrefixesRooted(pathname, routes[i]);
      }
    }
  }

  /** Under the as-written filter, a non-empty list of object entries admits no API path at all. */
  lemma ObjectRoutesDisableShield(pathname: string, routes: seq<Route>)
    requires StartsWith(pathname, "/api/")
    ensures |routes| > 0 && (forall i :: 0 <= i < |routes| ==> routes[i].Obj?) ==> !RoutesAdmitAsWritten(pathname, routes)
  {
    forall i | 0 <= i < |routes| && routes[i].Obj?
      ensures !StartsWith(pathname, RouteAsString(routes[i]))
    {
      ObjectNeverPrefixesRooted(pathname, routes[i]);
    }
  }

  /**
   The two filters agree on lists of plain strings; on rooted paths the
   intended one admits whatever the as-written one does, and also every path
   that an object entry's own path starts or its validated pattern matches.
   */
  lemma RoutesAdmitCorrectsFilter(pathname: string, routes: seq<Route>)
    ensures (forall i :: 0 <= i < |routes| ==> routes[i].Str?) ==>
              (RoutesAdmit(pathname, routes) <==> RoutesAdmitAsWritten(pathname, routes))
    ensures StartsWith(pathname, "/") && RoutesAdmitAsWritten(pathname, routes) ==> RoutesAdmit(pathname, routes)
    ensures forall i :: 0 <= i < |routes| && StartsWith(pathname, routes[i].path) ==> RoutesAdmit(pathname, routes)
    ensures forall i :: 0 <= i < |routes| && Routes.IsPatternHit(routes[i], pathname) ==> RoutesAdmit(pathname, routes)
  {
    if StartsWith(pathname, "/") && RoutesAdmitAsWritten(pathname, routes) && |routes| > 0 {
      var i :| 0 <= i < |routes| && StartsWith(pathname, RouteAsString(routes[i]));
      ObjectNeverPrefixesRooted(pathname, routes[i]);
    }
  }

  /** `"[object Object]"` starts no path that starts with `/`. */
  lemma ObjectNeverPrefixesRooted(pathname: string, r: Route)
    requires StartsWith(pathname, "/")
    ensures r.Obj? ==> !StartsWith(pathname, RouteAsString(r))
  {
    assert pathname[0] == '/';
  }

  /**
   The intended filter admits a path exactly when `routes.ts` resolves it to
   some entry (or to the empty-list placeholder).
   */
  lemma RoutesAdmitIsHasRouteLimit(pathname: string, config: ModuleOptions)
    requires Routes.RoutesInDomain(config.routes)
    ensures RoutesAdmit(pathname, config.routes) <==> Routes.HasRouteLimit(pathname, config)
  {
    ExactHitsArePrefixHits(pathname, config.routes);
  }

  /**
   The request is one the shield looks at: an API path the route list
   admits. Without a route list every API path is guarded; with one, exactly
   the API paths that `routes.ts` resolves to an entry.
   */
  predicate Guarded(pathname: string, routes: seq<Route>): (guarded: bool)
    ensures guarded ==> StartsWith(pathname, "/api/")
    ensures |routes| == 0 ==> (guarded <==> StartsWith(pathname, "/api/"))
  {
    StartsWith(pathname, "/api/") && RoutesAdmit(pathname, routes)
  }

  /** With a route list, exactly the API paths that `routes.ts` resolves to an entry are guarded. */
  lemma GuardedIsResolvedApiPath(pathname: string, config: ModuleOptions)
    requires Routes.RoutesInDomain(config.routes)
    ensures Guarded(pathname, config.routes) <==>
              StartsWith(pathname, "/api/") && Routes.FindBestMatchingRoute(pathname, config.routes).Some?
  {
    RoutesAdmitIsHasRouteLimit(pathname, config);
  }

  /** The numeric ban stamp stored under `banKey`, if the stored value is truthy and numeric. */
  function BanStamp(store: Store, banKey: string): (b: Option<int>)
    ensures b.Some? <==> Truthy(Get(store, banKey)) && ToNumber(store[banKey]).Some?
    ensures b.Some? ==> b.value == ToNumber(store[banKey]).value
  {
    var raw := Get(store, banKey);
    if Truthy(raw) then ToNumber(raw.value) else None
  }

  /**
   The middleware for one request. `req.count++` on a stored primitive
   throws in strict-mode code, which surfaces as `Fault`.
   */
  function Handle(store: Store, config: ModuleOptions, pathname: string, ip: Option<string>, now: int): (step: Step)
    ensures !Guarded(pathname, config.routes) ==> step == Step(store, Allow)
    ensures Guarded(pathname, config.routes) && CheckBan(store, BanKey(ClientAddress(ip)), config.retryAfterHeader, now).Block? ==>
              step == Step(store, Reject(CheckBan(store, BanKey(ClientAddress(ip)), config.retryAfterHeader, now).retryAfter))
    ensures forall k :: k != IpKey(ClientAddress(ip)) && k != BanKey(ClientAddress(ip)) ==> Get(step.store, k) == Get(store, k)
  {
    if !Guarded(pathname, config.routes) then Step(store, Allow)
    else
      var addr := ClientAddress(ip);
      var banKey := BanKey(addr);
      var bannedUntil := BanStamp(store, banKey);
      if bannedUntil.Some? && now < bannedUntil.value then
        Step(store, Reject(if config.retryAfterHeader then Some(CeilSeconds(bannedUntil.value - now)) else None))
      else
        var unbanned := if bannedUntil.Some? && now >= bannedUntil.value then Remove(store, banKey) else store;
        var ipKey := IpKey(addr);
        var req := Get(unbanned, ipKey);
        if !Truthy(req) || WindowElapsed(req.value, config.limit.duration, now) then
          Step(unbanned[ipKey := Counter(1, now)], Allow)
        else if IsPrimitive(req.value) then
          Step(unbanned, Fault)
        else
          var count := NextCount(req.value);
          if count.Some? && count.value > config.limit.max then
            var banned := unbanned[banKey := Num(now + config.limit.ban * 1000)];
            Step(banned[ipKey := Counter(1, now)], Reject(if config.retryAfterHeader then Some(config.limit.ban) else None))
          else
            Step(unbanned[ipKey := Record(count, req.value.time)], Allow)
  }

  /**
   The middleware built from the utilities: `checkBan`, removal of an expired
   ban, then `handleRateLimit` with the global limit. It never faults, it
   touches only the client's two keys, and a ban in force answers alone.
   */
  function Composed(store: Store, config: ModuleOptions, pathname: string, ip: Option<string>, now: int): (step: Step)
    ensures !Guarded(pathname, config.routes) ==> step == Step(store, Allow)
    ensures Guarded(pathname, config.routes) && CheckBan(store, BanKey(ClientAddress(ip)), config.retryAfterHeader, now).Block? ==>
              step == Step(store, Reject(CheckBan(store, BanKey(ClientAddress(ip)), config.retryAfterHeader, now).retryAfter))
    ensures forall k :: k != IpKey(ClientAddress(ip)) && k != BanKey(ClientAddress(ip)) ==> Get(step.store, k) == Get(store, k)
    ensures step.verdict != Fault
  {
    if !Guarded(pathname, config.routes) then Step(store, Allow)
    else
      var addr := ClientAddress(ip);
      match CheckBan(store, BanKey(addr), config.retryAfterHeader, now)
      case Block(retryAfter) => Step(store, Reject(retryAfter))
      case Pass(needsCleanup) =>
        var unbanned := if needsCleanup then Remove(store, BanKey(addr)) else store;
        HandleRateLimit(unbanned, IpKey(addr), BanKey(addr), config.limit, config.retryAfterHeader, now)
  }

  /** The counter key holds no truthy primitive: nothing, a falsy value, or an object. */
  predicate CounterSlotSane(store: Store, ip: Option<string>) {
    var v := Get(store, IpKey(ClientAddress(ip)));
    !Truthy(v) || !IsPrimitive(v.value)
  }

  lemma BanAndIpKeysDiffer(addr: string)
    ensures BanKey(addr) != IpKey(addr)
  {
    assert BanKey(addr)[1] == 'a';
    assert IpKey(addr)[1] == 'p';
  }

  /**
   With no truthy primitive under the counter key, the inline middleware is
   exactly the ban gate, then removal of an expired ban, then the shared
   rate-limit transition under the global limit.
   */
  lemma ShieldIsComposition(store: Store, config: ModuleOptions, pathname: string, ip: Option<string>, now: int)
    requires CounterSlotSane(store, ip)
    ensures Handle(store, config, pathname, ip, now) == Composed(store, config, pathname, ip, now)
  {
    var addr := ClientAddress(ip);
    BanAndIpKeysDiffer(addr);
  }

  /**
   With a truthy primitive under the counter key, inside a window, the
   middleware faults where the shared transition would count the request
   and allow it.
   */
  lemma PrimitiveCounterDiverges(store: Store, config: ModuleOptions, pathname: string, ip: Option<string>, now: int)
    requires Guarded(pathname, config.routes)
    requires !CheckBan(store, BanKey(ClientAddress(ip)), config.retryAfterHeader, now).Block?
    requires Truthy(Get(store, IpKey(ClientAddress(ip)))) && IsPrimitive(store[IpKey(ClientAddress(ip))])
    ensures Handle(store, config, pathname, ip, now).verdict == Fault
    ensures Composed(store, config, pathname, ip, now).verdict == Allow
  {
    var addr := ClientAddress(ip);
    BanAndIpKeysDiffer(addr);
  }

  /** An expired ban is removed before counting; unless the request trips again, the ban key is left empty. */
  lemma ExpiredBanRemoved(store: Store, config: ModuleOptions, pathname: string, ip: Option<string>, now: int)
    requires Guarded(pathname, config.routes)
    requires CheckBan(store, BanKey(ClientAddress(ip)), config.retryAfterHeader, now) == Pass(true)
    ensures var step := Handle(store, config, pathname, ip, now);
            step.verdict.Reject? || Get(step.store, BanKey(ClientAddress(ip))).None?
  {
    BanAndIpKeysDiffer(ClientAddress(ip));
  }

  /**
   With `limit.ban = 0`, a request that gets past the ban gate leaves no ban
   that the gate would enforce at any later time.
   */
  lemma ZeroBanNeverBlocks(store: Store, config: ModuleOptions, pathname: string, ip: Option<string>, now: int, later: int)
    requires config.limit.ban == 0 && now <= later
    requires !CheckBan(store, BanKey(ClientAddress(ip)), config.retryAfterHeader, now).Block?
    ensures !CheckBan(Handle(store, config, pathname, ip, now).store, BanKey(ClientAddress(ip)), config.retryAfterHeader, later).Block?
  {
    BanAndIpKeysDiffer(ClientAddress(ip));
  }

  /** The middleware with its route filter as written: entries are compared by their string coercion. */
  function HandleAsWritten(store: Store, config: ModuleOptions, pathname: string, ip: Option<string>, now: int): (step: Step)
    ensures StartsWith(pathname, "/api/") && |config.routes| > 0 && (forall i :: 0 <= i < |config.routes| ==> config.routes[i].Obj?) ==>
              step == Step(store, Allow)
    ensures (forall i :: 0 <= i < |config.routes| ==> config.routes[i].Str?) ==>
              step == Handle(store, config, pathname, ip, now)
  {
    RoutesAdmitCorrectsFilter(pathname, config.routes);
    if !StartsWith(pathname, "/api/") then Step(store, Allow)
    else
      ObjectRoutesDisableShield(pathname, config.routes);
      if !RoutesAdmitAsWritten(pathname, config.routes) then Step(store, Allow)
      else Handle(store, config, pathname, ip, now)
  }

  /**
   One object entry naming the very path requested: a client already at the
   limit is rejected by the intended filter, and waved through, uncounted,
   by the filter as written.
   */
  lemma ObjectRouteCounterexample()
    ensures var config := ModuleOptions(Limit(2, 3, 10), false, [Obj("/api/limited", None, Some(1), Some(2), Some(50))]);
            var store := map[IpKey("c") := Counter(2, 0)];
            && HandleAsWritten(store, config, "/api/limited", Some("c"), 1000) == Step(store, Allow)
            && Handle(store, config, "/api/limited", Some("c"), 1000).verdict == Reject(None)
  {
    var config := ModuleOptions(Limit(2, 3, 10), false, [Obj("/api/limited", None, Some(1), Some(2), Some(50))]);
    var store := map[IpKey("c") := Counter(2, 0)];
    assert StartsWith("/api/limited", "/api/");
    assert StartsWith("/api/limited", config.routes[0].path);
    assert Guarded("/api/limited", config.routes);
    BanAndIpKeysDiffer("c");
  }

  // A lone `pattern: true` entry `/api/*/b` guards `/api/seg/b`, which no
  // entry's path starts: `routes.ts` resolves the path to that entry through
  // its pattern tier, the intended filter guards it and a first request opens
  // a counter, while the filter as written lets it through uncounted.
  lemma PatternRouteGuarded(b: string, seg: string, config: ModuleOptions, store: Store, ip: Option<string>, now: int)
    requires PatternExamples.SegmentName(b) && '/' !in seg
    requires config.routes == [Obj("/api/*/" + b, Some(true), Some(2), Some(60), Some(30))]
    ensures Routes.RoutesInDomain(config.routes)
    ensures Routes.FindBestMatchingRoute("/api/" + seg + "/" + b, config.routes) == Some(config.routes[0])
    ensures Guarded("/api/" + seg + "/" + b, config.routes)
    ensures Get(store, BanKey(ClientAddress(ip))).None? && Get(store, IpKey(ClientAddress(ip))).None? ==>
              Handle(store, config, "/api/" + seg + "/" + b, ip, now)
                == Step(store[IpKey(ClientAddress(ip)) := Counter(1, now)], Allow)
    ensures HandleAsWritten(store, config, "/api/" + seg + "/" + b, ip, now) == Step(store, Allow)
  {
    MiddleStarEntryHit(b, seg, config.routes);
    ApiPrefix(seg + "/" + b);
    assert "/api/" + seg + "/" + b == "/api/" + (seg + "/" + b);
    LonePatternEntryGuards(store, config, "/api/" + seg + "/" + b, ip, now);
  }

  /**
   An API path that the one entry of an object list matches only through its
   pattern resolves to that entry, is guarded by the intended filter, and
   passes uncounted under the filter as written.
   */
  lemma LonePatternEntryGuards(store: Store, config: ModuleOptions, path: string, ip: Option<string>, now: int)
    requires |config.routes| == 1 && config.routes[0].Obj?
    requires Routes.RoutesInDomain(config.routes) && Routes.IsPatternHit(config.routes[0], path)
    requires StartsWith(path, "/api/")
    ensures Routes.FindBestMatchingRoute(path, config.routes) == Some(config.routes[0])
    ensures Guarded(path, config.routes)
    ensures Get(store, BanKey(ClientAddress(ip))).None? && Get(store, IpKey(ClientAddress(ip))).None? ==>
              Handle(store, config, path, ip, now) == Step(store[IpKey(ClientAddress(ip)) := Counter(1, now)], Allow)
    ensures HandleAsWritten(store, config, path, ip, now) == Step(store, Allow)
  {
    LonePatternResolves(path, config.routes);
    PatternHitGuarded(path, config.routes);
    if Get(store, BanKey(ClientAddress(ip))).None? && Get(store, IpKey(ClientAddress(ip))).None? {
      GuardedFirstRequest(store, config, path, ip, now);
    }
    ObjectListPassesAsWritten(store, config, path, ip, now);
  }

  /** A list whose one entry is a pattern hit resolves to that entry. */
  lemma LonePatternResolves(path: string, routes: seq<Route>)
    requires |routes| == 1 && Routes.RoutesInDomain(routes) && Routes.IsPatternHit(routes[0], path)
    ensures Routes.FindBestMatchingRoute(path, routes) == Some(routes[0])
  {
    assert !Routes.IsExact(routes[0], path);
    assert Routes.FirstExact(routes, path, 0).None?;
    assert Routes.BestPattern(routes, path) == Some(0);
  }

  /** An API path that some entry's pattern matches is guarded. */
  lemma PatternHitGuarded(path: string, routes: seq<Route>)
    requires StartsWith(path, "/api/") && |routes| > 0 && Routes.IsPatternHit(routes[0], path)
    ensures Guarded(path, routes)
  {
    RoutesAdmitCorrectsFilter(path, routes);
  }

  /** Under the filter as written, an all-object list waves every API request through. */
  lemma ObjectListPassesAsWritten(store: Store, config: ModuleOptions, path: string, ip: Option<string>, now: int)
    requires StartsWith(path, "/api/") && |config.routes| > 0
    requires forall i :: 0 <= i < |config.routes| ==> config.routes[i].Obj?
    ensures HandleAsWritten(store, config, path, ip, now) == Step(store, Allow)
  {
  }

  // The entry `/api/*/b`, flagged as a pattern, validates and matches `/api/seg/b`.
  lemma MiddleStarEntryHit(b: string, seg: string, routes: seq<Route>)
    requires PatternExamples.SegmentName(b) && '/' !in seg
    requires routes == [Obj("/api/*/" + b, Some(true), Some(2), Some(60), Some(30))]
    ensures Routes.RoutesInDomain(routes)
    ensures Routes.IsPatternHit(routes[0], "/api/" + seg + "/" + b)
  {
    MiddleStarApiFacts(b, seg);
    LonePatternEntry("/api/*/" + b, "/api/" + seg + "/" + b, routes);
  }

  lemma MiddleStarApiFacts(b: string, seg: string)
    requires PatternExamples.SegmentName(b) && '/' !in seg
    ensures ValidatePattern("/api/*/" + b) && InDomain("/api/*/" + b)
    ensures MatchesPattern("/api/*/" + b, "/api/" + seg + "/" + b)
  {
    PatternExamples.AcceptsMiddleStar(b);
    ApiShapes(b, seg);
    PatternExamples.MiddleStarMatches("api", b, "/" + "api" + "/" + seg + "/" + b);
  }

  lemma ApiShapes(b: string, seg: string)
    ensures "/" + "api" + "/*/" + b == "/api/*/" + b
    ensures "/" + "api" + "/" + seg + "/" + b == "/api/" + seg + "/" + b
  {
  }

  /** A single validated, in-domain pattern entry matching the path is a pattern hit, and the list is in the domain. */
  lemma LonePatternEntry(p: string, path: string, routes: seq<Route>)
    requires ValidatePattern(p) && InDomain(p) && MatchesPattern(p, path)
    requires routes == [Obj(p, Some(true), Some(2), Some(60), Some(30))]
    ensures Routes.RoutesInDomain(routes)
    ensures Routes.IsPatternHit(routes[0], path)
  {
  }

  lemma ApiPrefix(rest: string)
    ensures StartsWith("/api/" + rest, "/api/")
  {
    assert ("/api/" + rest)[..5] == "/api/";
  }

  /** A guarded request from a client with no ban and no counter opens a window and is allowed. */
  lemma GuardedFirstRequest(store: Store, config: ModuleOptions, pathname: string, ip: Option<string>, now: int)
    requires Guarded(pathname, config.routes)
    requires Get(store, BanKey(ClientAddress(ip))).None? && Get(store, IpKey(ClientAddress(ip))).None?
    ensures Handle(store, config, pathname, ip, now) == Step(store[IpKey(ClientAddress(ip)) := Counter(1, now)], Allow)
  {
  }

  /**
   The basic fixture (max 2, duration 10 s, ban 3 s, Retry-After on, no
   route list) for one client: two requests pass, the third trips a 3-second
   ban, a request during the ban is told to retry in 3 s, and the first
   request once the ban has lapsed passes.
   */
  lemma BasicFixtureScenario()
    ensures var config := ModuleOptions(Limit(2, 10, 3), true, []);
            var ip := Some("c");
            var s1 := Handle(map[], config, "/api/example", ip, 0);
            var s2 := Handle(s1.store, config, "/api/example", ip, 100);
            var s3 := Handle(s2.store, config, "/api/example", ip, 200);
            var s4 := Handle(s3.store, config, "/api/example", ip, 1000);
            var s5 := Handle(s4.store, config, "/api/example", ip, 3200);
            && s1.verdict == Allow && s2.verdict == Allow
            && s3.verdict == Reject(Some(3)) && s4.verdict == Reject(Some(3))
            && s5.verdict == Allow
  {
    var config := ModuleOptions(Limit(2, 10, 3), true, []);
    var ip := Some("c");
    assert Guarded("/api/example", config.routes) by {
      assert StartsWith("/api/example", "/api/");
    }
    BanAndIpKeysDiffer("c");
    var s1 := Handle(map[], config, "/api/example", ip, 0);
    assert s1.store == map[IpKey("c") := Counter(1, 0)];
    var s2 := Handle(s1.store, config, "/api/example", ip, 100);
    assert s2.store == map[IpKey("c") := Counter(2, 0)];
    var s3 := Handle(s2.store, config, "/api/example", ip, 200);
    assert s3.store == map[IpKey("c") := Counter(1, 200), BanKey("c") := Num(3200)];
    var s4 := Handle(s3.store, config, "/api/example", ip, 1000);
    assert s4.store == s3.store;
    assert CeilSeconds(2200) == 3;
  }
}
