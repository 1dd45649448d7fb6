/**
 The counter window and the trip to a ban (`rateLimit.ts`).

 A client's counter is `{count, time}`: the number of requests seen in the
 window that started at `time`. A request outside the window (or with no
 counter) restarts it at `{1, now}`. Inside it, the count goes up by one. If
 it passes `max`, the client is banned for `ban` seconds, the counter
 restarts, and the request is rejected.
 */
module RateLimiting {
  import opened Options
  import opened Storage
  import opened Config

  /**
   `(now - time) / 1000 >= duration`, with whole-second durations. A value
   with no numeric `time` gives `NaN`, which compares false.
   */
  predicate WindowElapsed(v: Value, duration: int, now: int) {
    v.Record? && v.time.Some? && now - v.time.value >= duration * 1000
  }

  /** `count + 1`, with `None` for `NaN` (a primitive or a record with no numeric count). */
  function NextCount(v: Value): (c: Option<int>)
    ensures c.Some? <==> v.Record? && v.count.Some?
    ensures c.Some? ==> c.value == v.count.value + 1
  {
    if v.Record? && v.count.Some? then Some(v.count.value + 1) else None
  }

  /** `time` as read off the stored value: `undefined` for a primitive. */
  function TimeOf(v: Value): (t: Option<int>)
    ensures v.Record? ==> t == v.time
    ensures !v.Record? ==> t.None?
  {
    if v.Record? then v.time else None
  }

  /** The request starts a fresh window: nothing truthy is stored, or the stored window has run out. */
  predicate StartsWindow(state: Option<Value>, limit: Limit, now: int) {
    !Truthy(state) || WindowElapsed(state.value, limit.duration, now)
  }

  /** The request trips the limit: it falls in the current window and the incremented count exceeds `max`. */
  predicate Trips(state: Option<Value>, limit: Limit, now: int) {
    !StartsWindow(state, limit, now) && NextCount(state.value).Some? && NextCount(state.value).value > limit.max
  }

  /** `handleRateLimit` for one request, with `routeLimit` as `limit`. */
  function HandleRateLimit(store: Store, ipKey: string, banKey: string, limit: Limit, retryAfterHeader: bool, now: int): (step: Step)
    // the key the caller did not name is never touched
    ensures forall k :: k != ipKey && k != banKey ==> Get(step.store, k) == Get(store, k)
    // the ban key is written exactly on a trip
    ensures banKey != ipKey && !Trips(Get(store, ipKey), limit, now) ==> Get(step.store, banKey) == Get(store, banKey)
    // a fresh window: counter {1, now}, request allowed
    ensures StartsWindow(Get(store, ipKey), limit, now) ==>
              step.verdict == Allow && Get(step.store, ipKey) == Some(Counter(1, now))
    // a trip: ban stamp, counter {1, now}, 429 carrying `ban` exactly when the header is on
    ensures Trips(Get(store, ipKey), limit, now) ==>
              && step.verdict == Reject(if retryAfterHeader then Some(limit.ban) else None)
              && Get(step.store, ipKey) == Some(Counter(1, now))
              && (banKey != ipKey ==> Get(step.store, banKey) == Some(Num(now + limit.ban * 1000)))
    // otherwise: counted, window start kept, allowed
    ensures !StartsWindow(Get(store, ipKey), limit, now) && !Trips(Get(store, ipKey), limit, now) ==>
              var v := Get(store, ipKey).value;
              step.verdict == Allow && Get(step.store, ipKey) == Some(Record(NextCount(v), TimeOf(v)))
    ensures step.verdict != Fault
    ensures step.verdict.Reject? <==> Trips(Get(store, ipKey), limit, now)
  {
    var state := Get(store, ipKey);
    if StartsWindow(state, limit, now) then
      Step(store[ipKey := Counter(1, now)], Allow)
    else
      var newCount := NextCount(state.value);
      if newCount.Some? && newCount.value > limit.max then
        var banned := store[banKey := Num(now + limit.ban * 1000)];
        Step(banned[ipKey := Counter(1, now)], Reject(if retryAfterHeader then Some(limit.ban) else None))
      else
        Step(store[ipKey := Record(newCount, TimeOf(state.value))], Allow)
  }

  /** A stored counter the shield itself could have written under `limit`: count in 1..max. */
  predicate CounterInRange(state: Option<Value>, limit: Limit) {
    state.Some? && state.value.Record?
    && state.value.count.Some? && state.value.time.Some?
    && 1 <= state.value.count.value <= limit.max
  }

  /**
   With `max >= 1`, starting from no counter or a counter in 1..max, the
   counter is again in 1..max after the request.
   */
  lemma CountStaysInRange(store: Store, ipKey: string, banKey: string, limit: Limit, retryAfterHeader: bool, now: int)
    requires limit.max >= 1
    requires !Truthy(Get(store, ipKey)) || CounterInRange(Get(store, ipKey), limit)
    ensures CounterInRange(Get(HandleRateLimit(store, ipKey, banKey, limit, retryAfterHeader, now).store, ipKey), limit)
  {
    var state := Get(store, ipKey);
    var step := HandleRateLimit(store, ipKey, banKey, limit, retryAfterHeader, now);
    if !StartsWindow(state, limit, now) && !Trips(state, limit, now) {
      assert NextCount(state.value).value <= limit.max;
    }
  }

  /**
   Inside one window, a stored count `c` becomes `c + 1` with the window
   start kept while `c + 1 <= max`; the request that takes it past `max` is
   rejected.
   */
  lemma CountTracksRequests(store: Store, ipKey: string, banKey: string, limit: Limit, hdr: bool, start: int, now: int, c: int)
    requires 1 <= c && start <= now && now - start < limit.duration * 1000
    requires Get(store, ipKey) == Some(Counter(c, start))
    ensures c + 1 <= limit.max ==>
              HandleRateLimit(store, ipKey, banKey, limit, hdr, now).verdict == Allow
              && Get(HandleRateLimit(store, ipKey, banKey, limit, hdr, now).store, ipKey) == Some(Counter(c + 1, start))
    ensures c + 1 > limit.max ==> HandleRateLimit(store, ipKey, banKey, limit, hdr, now).verdict.Reject?
  {
  }

  /**
   A truthy value at the counter key that is not a counter with a numeric
   count (a string, a number, a record whose count is `NaN`) never trips the
   limit: the request is allowed. When the value has no numeric `time`
   either, the window never runs out and the key is left holding
   `{count: NaN, time: undefined}`, so that client is never limited again
   until the key is swept. This holds with values read back as stored; a
   storage layer that round-trips values through JSON reads the `NaN` back
   as `null`, which counts up from 1.
   */
  lemma MalformedCounterNeverTrips(store: Store, ipKey: string, banKey: string, limit: Limit, hdr: bool, now: int)
    requires Truthy(Get(store, ipKey))
    requires !(Get(store, ipKey).value.Record? && Get(store, ipKey).value.count.Some?)
    ensures HandleRateLimit(store, ipKey, banKey, limit, hdr, now).verdict == Allow
    ensures TimeOf(Get(store, ipKey).value).None? ==>
              Get(HandleRateLimit(store, ipKey, banKey, limit, hdr, now).store, ipKey) == Some(Record(None, None))
  {
  }
}
