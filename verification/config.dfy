/**
 The module's configuration (`src/type.d.ts`): a global limit and an ordered
 list of per-route entries, each either a bare path string or an object with
 a path, an optional `pattern` flag and optional limit overrides.
 */
module Config {
  import opened Options

  /** `LimitConfiguration`: at most `max` requests per `duration` seconds, then a `ban`-second ban. */
  datatype Limit = Limit(max: int, duration: int, ban: int)

  /** A route entry: a bare path string, or `{path, pattern?, max?, duration?, ban?}`. */
  datatype Route =
    | Str(path: string)
    | Obj(path: string, pattern: Option<bool>, max: Option<int>, duration: Option<int>, ban: Option<int>)

  /** The slice of `ModuleOptions` the admission engine reads. */
  datatype ModuleOptions = ModuleOptions(limit: Limit, retryAfterHeader: bool, routes: seq<Route>)

  /** The module's default global limit (`src/module.ts`). */
  const DefaultLimit := Limit(12, 108, 3600)

  /** The object form of an entry: a bare string `p` reads as `{path: p}`. */
  function AsObject(r: Route): (o: Route)
    ensures o.Obj? && o.path == r.path
    ensures r.Obj? ==> o == r
    ensures r.Str? ==> o.pattern.None? && o.max.None? && o.duration.None? && o.ban.None?
  {
    match r
    case Str(p) => Obj(p, None, None, None, None)
    case Obj(_, _, _, _, _) => r
  }
}
