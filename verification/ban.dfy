/** The ban gate (`ban.ts`). */
module BanGate {
  import opened Options
  import opened Storage
  import opened Expiry

  /**
   What `checkBan` does: returns normally (`true` when an expired ban is
   left to clean up) or throws 429 with an optional Retry-After in seconds.
   */
  datatype Gate = Pass(needsCleanup: bool) | Block(retryAfter: Option<int>)

  /** `Math.ceil(ms / 1000)` for a positive millisecond span. */
  function CeilSeconds(ms: int): (s: int)
    requires ms > 0
    ensures s >= 1
    ensures (s - 1) * 1000 < ms <= s * 1000
  {
    (ms + 999) / 1000
  }

  /**
   `checkBan`: a falsy or non-numeric stored value does not ban; a stamp
   later than `now` does; a stamp at or before `now` has expired. The gate
   only reads the store: it returns no new one.
   */
  function CheckBan(store: Store, banKey: string, retryAfterHeader: bool, now: int): (g: Gate)
    ensures !Truthy(Get(store, banKey)) ==> g == Pass(false)
    ensures Truthy(Get(store, banKey)) && ToNumber(store[banKey]).None? ==> g == Pass(false)
    ensures g.Block? <==> Truthy(Get(store, banKey)) && ToNumber(store[banKey]).Some? && now < ToNumber(store[banKey]).value
    ensures g == Pass(true) <==> Truthy(Get(store, banKey)) && ToNumber(store[banKey]).Some? && now >= ToNumber(store[banKey]).value
    ensures g.Block? && retryAfterHeader ==> g.retryAfter == Some(CeilSeconds(ToNumber(store[banKey]).value - now))
    ensures g.Block? && !retryAfterHeader ==> g.retryAfter.None?
  {
    var raw := Get(store, banKey);
    if !Truthy(raw) then Pass(false)
    else
      match ToNumber(raw.value)
      case None => Pass(false)
      case Some(bannedUntil) =>
        if now < bannedUntil then
          Block(if retryAfterHeader then Some(CeilSeconds(bannedUntil - now)) else None)
        else Pass(true)
  }

  /** A Retry-After sent by the gate is at least one second and covers the remaining ban. */
  lemma RetryAfterCoversBan(store: Store, banKey: string, now: int)
    requires CheckBan(store, banKey, true, now).Block?
    ensures var r := CheckBan(store, banKey, true, now).retryAfter.value;
            r >= 1 && now + r * 1000 >= ToNumber(store[banKey]).value
  {
  }

  /**
   For a non-negative clock, the gate rejects exactly when the stored value
   is not an expired ban timestamp. (A stored 0 or `""` is falsy and never
   bans; it counts as expired only from time 0 on.)
   */
  lemma CheckBanAgreesWithExpiry(store: Store, banKey: string, hdr: bool, now: int)
    requires now >= 0
    ensures CheckBan(store, banKey, hdr, now).Block? <==> !IsActualBanTimestampExpired(Get(store, banKey), now)
  {
  }

  /** Below zero the two disagree on a stored 0: it is falsy, so never a ban, yet not expired before time 0. */
  lemma CheckBanNeedsNonNegativeClock(banKey: string)
    ensures CheckBan(map[banKey := Num(0)], banKey, false, -1) == Pass(false)
    ensures !IsActualBanTimestampExpired(Get(map[banKey := Num(0)], banKey), -1)
  {
  }
}
