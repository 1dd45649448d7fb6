# nuxt-api-shield admission control, in Dafny

A model of the admission-control core of `nuxt-api-shield`, a Nuxt/Nitro
module. The module rate-limits `/api/` requests per client address, and it
bans a client that exceeds its limit for a configured time. It consists of:

- **Storage values** (`storage.dfy`). The shield store is a map from keys to
  stored values. A stored value is a counter object `{count, time}`, a
  number (booleans, with `false` and the empty string read as `0`), a numeric string, a
  non-numeric string, or `NaN`. JavaScript truthiness and `Number()` are
  spelled out over these cases.
- **Configuration** (`config.dfy`). The global `limit` (`max` requests per
  `duration` seconds, then a `ban` of that many seconds), the
  `retryAfterHeader` switch, and the route list. A route entry is a bare
  path string or an object with optional overrides.
- **Keys** (`keys.dfy`). `createKey`, and the inline `ip:` and `ban:` keys
  that the middleware builds.
- **Expiry predicates** (`expiry.dfy`). `isActualBanTimestampExpired` and
  `isBanExpired`.
- **The ban gate** (`ban.dfy`). `checkBan`: blocks with an optional
  Retry-After, or passes, saying whether an expired ban must be removed.
- **The rate-limit transition** (`ratelimit.dfy`). `handleRateLimit`:
  starts a fresh window, counts a request, or trips a ban and resets the
  window.
- **The pattern language** (`patterns.dfy`). `validatePattern`,
  `getPatternSpecificity` and `matchesPattern`. A glob compiles to segment
  tokens (`Lit`, `*`, `**`), and a matcher over these tokens is proved equal
  to a reference semantics, a split of the path into one piece per token.
  `pattern_examples.dfy` states the shapes of the wildcard tests for every
  choice of literal segments.
- **Route resolution** (`routes.dfy`). `findBestMatchingRoute` has three
  tiers: exact, then most specific pattern, then longest prefix. It is
  followed by `getRouteLimit` and `hasRouteLimit`.
- **The middleware** (`shield.dfy`). One request against the store:
  the path filter, the ban check and unban, then the counter logic, which
  runs against the global limit. `Shield.HandleAsWritten` is the middleware
  as `shield.ts` is written. `Shield.Handle` is the same middleware with the
  route filter corrected (see "## Findings"): it guards a path exactly when
  `hasRouteLimit` of `routes.ts` resolves an entry for it, that is, when
  some entry's `path` starts it or some validated `pattern: true` entry
  matches it. The code instead coerces object entries to a string. The two
  agree whenever the route list holds only strings.
- **The maintenance sweeps** (`sweepers.dfy`). `cleanBans` and
  `cleanIpData`, one generic sweep over a key listing.

Every operation is a pure function from a store (and the clock reading
`now`, in integer milliseconds) to a new store and a verdict: `Allow`,
`Reject(retryAfter)` for a 429, or `Fault` for a request whose handler
throws.

## Model

| member | source | states |
|---|---|---|
| `Config.AsObject` | src/runtime/server/utils/routes.ts:42 | A bare string entry reads as an object with that path and no overrides; object entries are kept as they are. |
| `Keys.CreateKey` | src/runtime/server/utils/createKey.ts:13-23 | The key starts with the prefix (default `ip`) and a colon and ends with a colon and the address; a non-empty path sits between them, otherwise prefix and address are joined directly. |
| `Keys.AddressRoundTrip` | src/runtime/server/utils/createKey.ts:13-23 | Reading the address back out of a path-less key gives the address that built it. |
| `Keys.CreateKeyInjective` | src/runtime/server/utils/createKey.ts:13-23 | For path-less keys, distinct addresses get distinct keys under the same prefix. |
| `Keys.CreateKeyMatchesInlineKeys` | src/runtime/server/middleware/shield.ts:22-42 | `createKey` with the default prefix, or with prefix `ban`, builds exactly the `ip:<addr>` and `ban:<addr>` keys the middleware writes inline. |
| `Keys.BanKeyNeverIpKey` | src/runtime/server/middleware/shield.ts:22-42 | No `ban:` key equals an `ip:` key, whatever the addresses and paths, so the ban and the counter never share a slot. |
| `Expiry.IsActualBanTimestampExpired` | src/runtime/server/utils/isActualBanTimestampExpired.ts:6-18 | Absent or null values and values whose `Number()` is NaN count as expired; a numeric value is expired exactly when `now` has reached it. |
| `Expiry.BanTimestampExpiryMonotone` | src/runtime/server/utils/isActualBanTimestampExpired.ts:6-18 | A stored ban that has expired stays expired at every later time. |
| `Expiry.IsBanExpired` | src/runtime/server/utils/isBanExpired.ts:3-6 | A record's ban is over once strictly more than `ban` seconds have passed since its `time`; a record without a numeric time never expires. |
| `Expiry.BanExpiryBoundary` | src/runtime/server/utils/isBanExpired.ts:3-6 | Exactly `ban` seconds after the record's time the ban still holds, and one millisecond later it has lapsed. |
| `Expiry.BanExpiryIgnoresCount` | src/runtime/server/utils/isBanExpired.ts:3-6 | The record's count plays no part in expiry. |
| `Expiry.BanExpiryMonotone` | src/runtime/server/utils/isBanExpired.ts:3-6 | An expired record stays expired at every later time. |
| `BanGate.CeilSeconds` | src/runtime/server/utils/ban.ts:29 | For a positive span of milliseconds, the result is the least whole number of seconds that covers it. |
| `BanGate.CheckBan` | src/runtime/server/utils/ban.ts:17-38 | A falsy or non-numeric stored value passes without cleanup. A numeric stamp blocks exactly while `now` is below it, with the remaining seconds rounded up as Retry-After when the header is on. Once `now` reaches the stamp it passes and asks for cleanup. |
| `BanGate.RetryAfterCoversBan` | src/runtime/server/utils/ban.ts:27-31 | A Retry-After sent by the gate is at least one second, and waiting that long outlasts the ban. |
| `BanGate.CheckBanAgreesWithExpiry` | src/runtime/server/utils/isActualBanTimestampExpired.ts:6-18 | For a non-negative clock the gate blocks exactly when the stored value is not an expired ban timestamp, so the request path and the ban sweep agree on which bans are live. |
| `BanGate.CheckBanNeedsNonNegativeClock` | src/runtime/server/utils/isActualBanTimestampExpired.ts:12-17 | Below zero the two disagree on a stored `0`: it is falsy, so never a ban, yet it is not expired before time 0. |
| `RateLimiting.NextCount` | src/runtime/server/utils/rateLimit.ts:35-39 | Incrementing a counter object gives its count plus one; anything without a numeric count gives no number (NaN). |
| `RateLimiting.HandleRateLimit` | src/runtime/server/utils/rateLimit.ts:22-63 | Touches only the counter and ban keys. Absent, falsy or out-of-window state starts a fresh window `{1, now}` and allows. A count that goes past `max` sets the ban to `now + ban*1000`, resets the window, and rejects with Retry-After `ban` when the header is on. Otherwise the incremented count is stored with the old time and the request is allowed. It rejects exactly when the request trips the limit and never faults. |
| `RateLimiting.CountStaysInRange` | src/runtime/server/utils/rateLimit.ts:26-63 | With `max >= 1`, a stored count between 1 and `max` stays between 1 and `max` after any request. |
| `RateLimiting.CountTracksRequests` | src/runtime/server/utils/rateLimit.ts:26-63 | Inside a window opened at `start` with count `c`, the next request is allowed and stored as `{c+1, start}` when `c+1 <= max`, and rejected otherwise. |
| `RateLimiting.MalformedCounterNeverTrips` | src/runtime/server/utils/rateLimit.ts:35-44 | A truthy stored value with no numeric count is always allowed; when it also has no numeric time it is stored back with neither. |
| `Patterns.Specificity` | src/runtime/server/utils/patternMatcher.ts:128-139 | A wildcard-free pattern scores 100; every pattern with a star scores at most 45; a validated pattern never scores below 10. |
| `Patterns.ValidatePattern` | src/runtime/server/utils/patternMatcher.ts:38-95 | A pattern that passes starts with `/`, holds at least two slashes (three `/`-separated parts), has at most four stars and at most two `**`, and contains none of `***`, `*/**/*` and `**/*/**`. |
| `Patterns.ValidatedNotBroad` | src/runtime/server/utils/patternMatcher.ts:58-71 | A validated pattern never starts with a star at the root or with `/api` followed by a star. |
| `Patterns.Compile` | src/runtime/server/utils/patternMatcher.ts:102-120 | The glob becomes one token per slash of the pattern, and no literal token spans a slash. |
| `Patterns.Match` | src/runtime/server/utils/patternMatcher.ts:106-119 | The anchored token matcher: a non-empty path it accepts starts with `/`. Its full language is stated by `Patterns.MatchIsLang`. |
| `Patterns.MatchesPattern` | src/runtime/server/utils/patternMatcher.ts:20-31 | A star-free pattern matches exactly itself. A pattern with a star matches exactly the paths that split into one piece per compiled token (`Patterns.Lang`). Under a rooted pattern a non-empty match starts with `/`. |
| `Patterns.CompileRender` | src/runtime/server/utils/patternMatcher.ts:102-120 | Compiling an absolute pattern into segment tokens loses nothing: rendering the tokens gives the pattern back. |
| `Patterns.MatchIsLang` | src/runtime/server/utils/patternMatcher.ts:20-31 | The matcher accepts a path exactly when the path splits into consecutive pieces, one per token: `/s` for a literal, a slash and a slash-free run for `*`, and for `**` either nothing or a slash followed by a run with no line terminator (`\n`, `\r`, U+2028, U+2029), since the regex `.` has no `s` flag. |
| `Patterns.StarMatchesOneSegment` | src/runtime/server/utils/patternMatcher.ts:113-117 | `/pre/*/post` matches exactly the paths `/pre/seg/post` with a slash-free `seg`. |
| `Patterns.DStarAbsorbs` | src/runtime/server/utils/patternMatcher.ts:106-111 | A `**` token absorbs any run of further segments, including none, as long as the run holds no line terminator. |
| `Patterns.LiteralMatch` | src/runtime/server/utils/patternMatcher.ts:20-31 | Literal tokens match one path only, their own text. |
| `Patterns.CompiledLiteralAgrees` | src/runtime/server/utils/patternMatcher.ts:20-24 | For a star-free pattern, the compiled matcher agrees with the equality shortcut, so regex metacharacters in it match only themselves. |
| `Patterns.MatchAppend` | src/runtime/server/utils/patternMatcher.ts:26-30 | Matches compose: tokens matching `x`, followed by tokens matching `y`, match `x + y`. |
| `Patterns.EndAnchoredLiteral` | src/runtime/server/utils/patternMatcher.ts:28 | The regex is anchored at the end: a pattern ending in a literal segment matches only paths ending in it. |
| `Patterns.EndAnchoredStar` | src/runtime/server/utils/patternMatcher.ts:28 | A trailing `*` matches only the part after the path's last slash, so it never spans two segments. |
| `Patterns.StartAnchoredLiteral` | src/runtime/server/utils/patternMatcher.ts:28 | The regex is anchored at the start: a pattern opening with a literal segment matches only paths opening with it. |
| `Strings.SplitJoin` | src/runtime/server/utils/patternMatcher.ts:84-89 | Splitting on `/` loses nothing: joining the parts with `/` restores the string. |
| `Strings.CountDoubleStars` | src/runtime/server/utils/patternMatcher.ts:46 | The non-overlapping count of `**` is at most half the number of stars. |
| `PatternExamples.StarFreeIsEquality` | test/wildcard.test.ts:6-14 | A pattern with no star matches exactly itself. |
| `PatternExamples.MiddleStarMatches` | test/wildcard.test.ts:16-18 | `/a/*/b` matches a path exactly when it is `/a/seg/b` for one slash-free `seg`. |
| `PatternExamples.MiddleStarRejectsTwoSegments` | test/wildcard.test.ts:24 | `/a/*/b` does not match when two segments stand in the star's place. |
| `PatternExamples.MiddleStarRejectsNoSegment` | test/wildcard.test.ts:26 | `/a/*/b` does not match `/a/b`. |
| `PatternExamples.TrailingStarMatches` | test/wildcard.test.ts:19-20 | `/a/b/*` matches `/a/b/seg` for every slash-free `seg`. |
| `PatternExamples.TrailingStarAnchored` | test/wildcard.test.ts:25 | `/a/b/*` does not reach into a second segment after `/a/b`. |
| `PatternExamples.MiddleDStarMatches` | test/wildcard.test.ts:30-32 | `/a/**/b` matches `/a` + `w` + `/b` exactly when `w` is empty, or starts with a slash and holds no line terminator. |
| `PatternExamples.MiddleDStarStopsAtLineBreak` | src/runtime/server/utils/patternMatcher.ts:106-110 | `/a/**/b` refuses `/a/seg` + a line terminator + `/b`, because `.` does not match one. |
| `PatternExamples.MiddleDStarAnchored` | test/wildcard.test.ts:29-35 | Whatever `/a/**/b` matches starts with `/a` and ends with `/b`. |
| `PatternExamples.RootDStarMatches` | test/wildcard.test.ts:33-34 | `/**/b` matches `w + /b`, yet validation refuses the pattern. |
| `PatternExamples.MixedMatches` | test/wildcard.test.ts:37-40 | `/a/*/r/**/s` matches `/a/seg/r` + `w` + `/s`. |
| `PatternExamples.AcceptsTrailingStar` | test/wildcard.test.ts:45 | `/api/b/*` passes validation for every segment name `b`. |
| `PatternExamples.AcceptsMiddleStar` | test/wildcard.test.ts:46 | `/api/*/b` passes validation for every segment name `b`. |
| `PatternExamples.AcceptsMiddleDStar` | test/wildcard.test.ts:47 | `/api/**/b` passes validation for every segment name `b`. |
| `PatternExamples.RejectsBroadPatterns` | test/wildcard.test.ts:50-65 | `/**`, `/*`, `/**/*`, `/api*/users` and `/api*` fail validation. |
| `PatternExamples.RejectsTooManyStars` | test/wildcard.test.ts:57 | `/api/**/*/**` fails validation. |
| `PatternExamples.RejectsFourStarRun` | test/wildcard.test.ts:58 | `/api/****/test` fails validation. |
| `PatternExamples.FewStarsPassCombinationChecks` | src/runtime/server/utils/patternMatcher.ts:73-81 | A pattern with at most two stars passes the consecutive-star and star-combination checks. |
| `PatternExamples.SpecificityOrder` | src/runtime/server/utils/patternMatcher.ts:128-139 | A single-star pattern scores 45 and outranks every pattern containing `**`. |
| `Routes.ExtractRoutePaths` | src/runtime/server/utils/routes.ts:8-15 | One path per entry, in order: the string itself or the object's `path`. |
| `Routes.FirstExact` | src/runtime/server/utils/routes.ts:33-43 | The first entry, in declaration order, that names the path exactly (a string, or an object not flagged as a pattern), or none when no entry does. |
| `Routes.FirstMax` | src/runtime/server/utils/routes.ts:52-56 | The selection both ranked tiers share: an index that has a score, whose score no other scored index beats, and before which every scored index scores strictly less; none exactly when no index has a score. |
| `Routes.BestPattern` | src/runtime/server/utils/routes.ts:46-56 | Among validated pattern entries that match, one of highest specificity, and the earliest such one, as a stable descending sort leaves at the head; none when no pattern entry matches. |
| `Routes.LongestPrefix` | src/runtime/server/utils/routes.ts:59-73 | Among entries whose path starts the request path, one with the longest path, and the earliest such one, as the `reduce` leaves it; none when no entry is a prefix. |
| `Routes.FindBestMatchingRoute` | src/runtime/server/utils/routes.ts:24-76 | An empty list yields the placeholder `{path: ''}`. A result is always in object form. The result is null exactly when the list is non-empty and no entry is an exact, pattern or prefix hit. |
| `Routes.ExactTierWins` | src/runtime/server/utils/routes.ts:33-43 | The first exact entry governs, in object form, whatever the pattern and prefix entries say. |
| `Routes.PatternTierWins` | src/runtime/server/utils/routes.ts:45-56 | With no exact entry, the earliest matching pattern entry of highest specificity governs. |
| `Routes.PrefixTierWins` | src/runtime/server/utils/routes.ts:58-73 | With no exact entry and no pattern hit, the earliest longest prefix entry governs, in object form. |
| `Routes.Merge` | src/runtime/server/utils/routes.ts:93 | Every override the entry sets replaces the global field; every field it leaves out keeps the global value. |
| `Routes.GetRouteLimit` | src/runtime/server/utils/routes.ts:85-94 | When no tier resolves the path, or no entries are configured, the global limit applies unchanged. When some tier (exact, pattern or prefix) resolves an entry, each of `max`, `duration` and `ban` is the entry's value if it sets one, else the global value. |
| `Routes.UngovernedPathGetsGlobalLimit` | src/runtime/server/utils/routes.ts:85-104 | A path no entry governs gets the global limit unchanged, and `hasRouteLimit` is false for it exactly when the list is non-empty. |
| `Routes.ExactRouteLimit` | src/runtime/server/utils/routes.ts:85-94 | The first exact entry supplies each field it sets, in particular its own `max`, and the global limit supplies the rest. |
| `Routes.HasRouteLimit` | src/runtime/server/utils/routes.ts:102-104 | True for every path when no entries are configured, and otherwise exactly when some tier resolves an entry. |
| `Shield.ClientAddress` | src/runtime/server/middleware/shield.ts:21 | The request's address when it has a non-empty one, else `unKnownIP`; never empty. |
| `Shield.ObjectRoutesDisableShield` | src/runtime/server/middleware/shield.ts:15-18 | Under the filter as written, a non-empty list of object entries admits no `/api/` path at all. |
| `Shield.RoutesAdmitCorrectsFilter` | src/runtime/server/middleware/shield.ts:15-18 | The intended filter agrees with the written one on string-only lists. On rooted paths it admits whatever the written one admits, and it also admits every path that an entry's own path starts and every path that a validated `pattern: true` entry matches. |
| `Shield.RoutesAdmitIsHasRouteLimit` | src/runtime/server/utils/routes.ts:102-104 | The intended filter admits a path exactly when `hasRouteLimit` holds for it: `findBestMatchingRoute` resolves it to some entry or, for an empty list, to the placeholder. |
| `Shield.RoutesAdmitAsWritten` | src/runtime/server/middleware/shield.ts:16 | The filter as written admits everything for an empty list. On a rooted path it admits exactly when some string entry starts the path: object entries never admit anything. |
| `Shield.RoutesAdmit` | src/runtime/server/middleware/shield.ts:15-16 | The corrected filter admits everything for an empty list. Every path that an entry names exactly is admitted. Otherwise it admits a path when some entry's path starts it or some validated pattern entry matches it (equal to `hasRouteLimit` by `Shield.RoutesAdmitIsHasRouteLimit`). |
| `Shield.Guarded` | src/runtime/server/middleware/shield.ts:15-18 | Only `/api/` paths are guarded. With no route list, every `/api/` path is guarded. With a list, `Shield.GuardedIsResolvedApiPath` says which paths are guarded. |
| `Shield.GuardedIsResolvedApiPath` | src/runtime/server/middleware/shield.ts:15-18 | A request is guarded exactly when its path starts with `/api/` and `findBestMatchingRoute` of `routes.ts` resolves it. |
| `Shield.PatternRouteGuarded` | src/runtime/server/utils/routes.ts:45-56 | A lone `pattern: true` entry `/api/*/b` resolves `/api/seg/b` through the pattern tier. The corrected middleware guards that path and a first request opens a counter, while the code as written lets it through uncounted and unchanged. |
| `Shield.LonePatternEntryGuards` | src/runtime/server/utils/routes.ts:45-56 | For any `/api/` path that the one object entry of a list matches as a pattern: it resolves to that entry, the corrected middleware guards it, and the middleware as written allows it and changes nothing. |
| `Shield.BanStamp` | src/runtime/server/middleware/shield.ts:23-27 | The ban stamp is present exactly when the stored value is truthy and numeric, and it is that number. |
| `Shield.Handle` | src/runtime/server/middleware/shield.ts:12-83 | The middleware with the corrected route filter `Shield.RoutesAdmit` in place of line 16 (`Shield.HandleAsWritten` is the code as written). Requests the filter does not guard are allowed and change nothing. A guarded request from a banned client is rejected with the gate's Retry-After and changes nothing. No key besides the client's counter and ban keys ever changes. |
| `Shield.Composed` | src/runtime/server/utils/rateLimit.ts:22-63 | The middleware rebuilt from `checkBan`, removal of an expired ban and `handleRateLimit`. It never faults, it changes no key besides the client's counter and ban keys, unguarded requests change nothing, and a ban in force rejects with the gate's Retry-After. |
| `Shield.ShieldIsComposition` | src/runtime/server/middleware/shield.ts:20-82 | Unless the counter slot holds a truthy primitive, the inline middleware equals `checkBan`, then removal of an expired ban, then `handleRateLimit` with the global limit. |
| `Shield.PrimitiveCounterDiverges` | src/runtime/server/middleware/shield.ts:47-57 | With a truthy primitive in the counter slot inside a window, the middleware faults where the shared transition would count the request and allow it. |
| `Shield.ExpiredBanRemoved` | src/runtime/server/middleware/shield.ts:37-40 | An expired ban is removed before counting; unless the request trips again, the client's ban key is left empty. |
| `Shield.ZeroBanNeverBlocks` | src/runtime/server/middleware/shield.ts:60-63 | With `limit.ban = 0`, a request that gets past the gate leaves no ban that the gate would enforce at any later time. |
| `Shield.HandleAsWritten` | src/runtime/server/middleware/shield.ts:15-18 | With the filter as written, an object-only route list lets every `/api/` request through uncounted and leaves the store untouched. On string-only lists it behaves exactly like `Handle`. |
| `Shield.ObjectRouteCounterexample` | src/runtime/server/middleware/shield.ts:16 | One object entry naming the requested path: a client already at the limit is rejected by the intended filter and waved through by the written one. |
| `Shield.BasicFixtureScenario` | test/basic.test.ts:11-40 | Under the basic fixture (max 2, duration 10 s, ban 3 s, Retry-After on), two requests pass, the third and one during the ban are rejected with Retry-After 3, and the first request after the ban has lapsed passes. |
| `Sweepers.SweepKeys` | playground/server/tasks/shield/cleanBans.ts:13-20 | After sweeping a listing, each key is gone exactly when it was listed and its value was condemned, every other key keeps its value, and the count is the number of condemned keys. |
| `Sweepers.CountIsRemovedKeys` | playground/server/tasks/shield/cleanIpData.ts:24-39 | When every listed key is stored, the reported count equals the number of keys that disappeared. |
| `Sweepers.CleanBans` | playground/server/tasks/shield/cleanBans.ts:8-23 | Non-ban keys keep their values. A ban key is removed exactly when its value is expired. Nothing is added or altered. Every ban that remains holds a number later than `now`. The count is the number of removed keys. |
| `Sweepers.CleanBansIdempotent` | playground/server/tasks/shield/cleanBans.ts:8-23 | A second sweep at the same time removes nothing and reports 0. |
| `Sweepers.CleanIpData` | playground/server/tasks/shield/cleanIpData.ts:9-43 | A missing, zero or negative TTL changes nothing and reports 0. Otherwise non-`ip:` keys keep their values, and an `ip:` entry is removed exactly when it lacks a numeric time or is older than the TTL. Every `ip:` entry that remains has a numeric time within the TTL. The count is the number of removed keys. |
| `Sweepers.CleanIpDataIdempotent` | playground/server/tasks/shield/cleanIpData.ts:9-43 | A second sweep at the same time and TTL removes nothing and reports 0. |

## Left out

- Logging: `shieldLog` is treated as a no-op. This is a modelling choice,
  not a property of the code. With `log.attempts` set, `handleRateLimit`
  awaits `shieldLog` before storing anything, and `shieldLog` can throw.
  It throws in `new Date(req.time).toISOString()` when a record has a
  numeric count but no time, and in `mkdir` when the log directory's
  parent is missing. In those cases the request fails with a non-429
  error and nothing is stored, which the model does not represent.
- `console.log` in the sweeps, the module setup in `src/module.ts` and the
  type-generation scripts.
- HTTP plumbing: `createError`, `setHeader`, `errorMessage`, the
  `delayOnBan` option and `getRequestIP` header parsing. A 429 is the
  `Reject` verdict, the Retry-After header is its optional payload, and the
  client address is a parameter.
- Time and concurrency: `Date.now()` is the parameter `now`, one reading per
  request, in integer milliseconds. Durations are integer seconds.
  Interleaving of concurrent requests, and `clean.ts` running the two sweeps
  side by side, are not modelled. Each operation is atomic against the
  store.
- Floating point: numbers are integers. `(now - time) / 1000 >= duration`
  is stated as `now - time >= duration * 1000`, which agrees for integer
  operands.
- Storage serialisation: values are modelled as stored, not as a JSON
  round trip. This is a modelling choice. The storage layer in front of
  every driver stringifies on `setItem` and parses on `getItem`, so a
  stored `{count: NaN}` reads back as `{count: null}`, and `null + 1` is 1.
- `Number()` over exotic values: a stored value is abstracted to one of the
  five `Value` shapes, and objects with other shapes are not distinguished.
  A record's `count` is a number, or `None` for absent, `undefined` or
  `NaN`. Its `time` is a number, or `None` for absent or `undefined`. A
  `NaN` time is not represented: `cleanIpData` would keep such an entry
  (`typeof NaN` is `'number'` and `now - NaN > ttl` is false), where it
  removes an entry with no time. The engine never writes a `NaN` time,
  since every `time` it stores is `now` or a copy of a stored `time`.
  `null` fields are not represented either.
- Regex semantics outside `Patterns.InDomain`. Route resolution assumes
  that every validated pattern entry lies in the domain
  (`Routes.RoutesInDomain`). A validated pattern whose wildcards are not
  whole segments would hand the JavaScript regex engine raw quantifiers,
  which the model does not interpret.
- `Keys.CreateKey`: an explicit `prefix: undefined` in the options object
  overrides the default and prints `undefined`; the model takes an absent
  prefix to mean the default.
- `Routes.Merge`: `Object.assign` also copies `path` and `pattern` into the
  merged object and lets an explicit `undefined` override a global field.
  The model merges only the three limit fields, and it reads an
  explicitly `undefined` override as absent.
- `Shield.Handle` counts every request against the global `limit`, as
  `shield.ts` does. Per-route limits are computed by `routes.ts` but are not
  applied by the middleware, so a per-route `max` has no effect on
  admission. The wildcard tests that expect a per-route `max` to take
  effect rely on those per-route limits, which the middleware does not
  apply.
- `RateLimiting.MalformedCounterNeverTrips`: the intended design has a
  malformed counter heal itself on the next request. With values modelled
  as stored (see storage serialisation above), the code does not do this:
  a truthy value without a numeric `count` is never counted up, never trips
  the limit, and without a numeric `time` it is stored back as a record
  with neither field. Through a JSON round trip the `NaN` count written
  back becomes `null`, and the record heals on the following request. The
  statement holds only under the modelling choice.
- `Shield.PrimitiveCounterDiverges`: when the counter slot holds a truthy
  primitive, the middleware's `req.count++` throws in strict-mode module
  code. The model reports this as the `Fault` verdict. The shared
  `handleRateLimit`, which builds a new object instead, counts the request
  and allows it.

## Findings

| source | as written | input that shows it | evidently intended | confidence | as-written member | corrected member |
|---|---|---|---|---|---|---|
| src/runtime/server/middleware/shield.ts:16 | `routes.some(route => pathname.startsWith(route))` passes object entries to `startsWith`, which coerces them to `"[object Object]"` | routes `[{path: '/api/limited', max: 1}]`, request `/api/limited` from a client already at the limit: the filter skips the path, so the request is allowed and not counted | compare the entry's path (the string itself, or the object's `path`), as `routes.ts` does, which is `hasRouteLimit` of `routes.ts`, so object entries guard the paths they name and, when flagged `pattern: true`, the paths their pattern matches | high (not executed) | `Shield.ObjectRouteCounterexample` | `Shield.RoutesAdmitCorrectsFilter`, `Shield.Handle` |
