/**
 The two expiry predicates (`isActualBanTimestampExpired.ts`,
 `isBanExpired.ts`). Time is an integer count of milliseconds; ban lengths
 are integer seconds.
 */
module Expiry {
  import opened Options
  import opened Storage

  /**
   Whether a stored ban value no longer bans: null or missing, a value that
   is not a number, or a stamp at or before `now`.
   */
  function IsActualBanTimestampExpired(raw: Option<Value>, now: int): (expired: bool)
    ensures raw.None? ==> expired
    ensures raw.Some? && ToNumber(raw.value).None? ==> expired
    ensures raw.Some? && ToNumber(raw.value).Some? ==> (expired <==> now >= ToNumber(raw.value).value)
  {
    match raw
    case None => true
    case Some(v) =>
      match ToNumber(v)
      case None => true
      case Some(stamp) => now >= stamp
  }

  /** Once expired, a ban value stays expired. */
  lemma BanTimestampExpiryMonotone(raw: Option<Value>, now: int, later: int)
    requires now <= later
    requires IsActualBanTimestampExpired(raw, now)
    ensures IsActualBanTimestampExpired(raw, later)
  {
  }

  /**
   `isBanExpired`: more than `banSeconds` whole seconds have passed since the
   record's `time`. A record whose `time` is not a number yields `NaN`, and
   every comparison with `NaN` is false.
   */
  function IsBanExpired(req: Value, now: int, banSeconds: int): (expired: bool)
    requires req.Record?
    ensures req.time.None? ==> !expired
    ensures req.time.Some? ==> (expired <==> now - req.time.value > banSeconds * 1000)
  {
    match req.time
    case None => false
    case Some(t) => now - t > banSeconds * 1000
  }

  /** Exactly `banSeconds` after the record's time the ban still holds; one millisecond later it has lapsed. */
  lemma BanExpiryBoundary(count: Option<int>, t: int, banSeconds: int)
    ensures !IsBanExpired(Record(count, Some(t)), t + banSeconds * 1000, banSeconds)
    ensures IsBanExpired(Record(count, Some(t)), t + banSeconds * 1000 + 1, banSeconds)
  {
  }

  /** The record's `count` plays no part. */
  lemma BanExpiryIgnoresCount(c1: Option<int>, c2: Option<int>, time: Option<int>, now: int, banSeconds: int)
    ensures IsBanExpired(Record(c1, time), now, banSeconds) == IsBanExpired(Record(c2, time), now, banSeconds)
  {
  }

  /** Once expired, a record stays expired. */
  lemma BanExpiryMonotone(req: Value, now: int, later: int, banSeconds: int)
    requires req.Record? && now <= later
    requires IsBanExpired(req, now, banSeconds)
    ensures IsBanExpired(req, later, banSeconds)
  {
  }
}
