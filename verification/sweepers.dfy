/**
 The two maintenance sweeps (`cleanBans.ts`, `cleanIpData.ts`): list the
 keys under a prefix, remove each whose value a predicate condemns, and
 report how many were removed. Both are one generic sweep over the listing.
 */
module Sweepers {
  import opened Options
  import opened Strings
  import opened Storage
  import opened Expiry

  /** A sweep's result: the store afterwards and the reported `cleanedCount`. */
  datatype Sweep = Sweep(store: Store, cleanedCount: nat)

  predicate Distinct(keys: seq<string>) {
    forall i, j :: 0 <= i < j < |keys| ==> keys[i] != keys[j]
  }

  /** `getKeys(prefix)`: every stored key with that prefix, each once. */
  predicate IsListing(store: Store, prefix: string, keys: seq<string>) {
    && Distinct(keys)
    && (forall i :: 0 <= i < |keys| ==> keys[i] in store && StartsWith(keys[i], prefix))
    && (forall k :: k in store && StartsWith(k, prefix) ==> k in keys)
  }

  /** The listed keys whose value, as stored before the sweep, is condemned. */
  function Condemned(store: Store, keys: seq<string>, doomed: Option<Value> -> bool): (ks: set<string>)
    ensures forall k :: k in ks <==> k in keys && doomed(Get(store, k))
  {
    set i | 0 <= i < |keys| && doomed(Get(store, keys[i])) :: keys[i]
  }

  /** Removing a key that is not listed does not change which listed keys are condemned. */
  lemma CondemnedIgnoresOthers(store: Store, k: string, keys: seq<string>, doomed: Option<Value> -> bool)
    requires k !in keys
    ensures Condemned(Remove(store, k), keys, doomed) == Condemned(store, keys, doomed)
  {
  }

  /**
   The loop of both tasks: visit the listed keys in order, read each one,
   and remove it (counting it) when `doomed` holds of what was read.
   */
  function SweepKeys(store: Store, keys: seq<string>, doomed: Option<Value> -> bool): (r: Sweep)
    requires Distinct(keys)
    ensures forall k :: Get(r.store, k) == (if k in Condemned(store, keys, doomed) then None else Get(store, k))
    ensures r.cleanedCount == |Condemned(store, keys, doomed)|
    decreases |keys|
  {
    if |keys| == 0 then Sweep(store, 0)
    else
      var k := keys[0];
      CondemnedCons(store, keys, doomed);
      if doomed(Get(store, k)) then
        var rest := SweepKeys(Remove(store, k), keys[1..], doomed);
        CondemnedIgnoresOthers(store, k, keys[1..], doomed);
        Sweep(rest.store, rest.cleanedCount + 1)
      else
        SweepKeys(store, keys[1..], doomed)
  }

  /** The condemned keys of a listing: its head when condemned, then those of its tail, which lacks the head. */
  lemma CondemnedCons(store: Store, keys: seq<string>, doomed: Option<Value> -> bool)
    requires Distinct(keys) && |keys| > 0
    ensures Distinct(keys[1..]) && keys[0] !in keys[1..]
    ensures Condemned(store, keys, doomed)
            == (if doomed(Get(store, keys[0])) then {keys[0]} else {}) + Condemned(store, keys[1..], doomed)
    ensures keys[0] !in Condemned(store, keys[1..], doomed)
  {
    assert keys == [keys[0]] + keys[1..];
  }

  /** When every listed key is stored, the reported count is the number of keys that disappeared. */
  lemma CountIsRemovedKeys(store: Store, keys: seq<string>, doomed: Option<Value> -> bool)
    requires Distinct(keys)
    requires forall i :: 0 <= i < |keys| ==> keys[i] in store
    ensures var r := SweepKeys(store, keys, doomed);
            r.cleanedCount == |store.Keys - r.store.Keys|
  {
    var r := SweepKeys(store, keys, doomed);
    var gone := store.Keys - r.store.Keys;
    forall k | k in gone
      ensures k in Condemned(store, keys, doomed)
    {
      assert Get(r.store, k).None?;
    }
    forall k | k in Condemned(store, keys, doomed)
      ensures k in gone
    {
      assert Get(r.store, k).None?;
    }
    assert gone == Condemned(store, keys, doomed);
  }

  /** `cleanBans`' test: the stored value is not a ban in force at `now`. */
  function BanDoomed(now: int): (doomed: Option<Value> -> bool)
    ensures forall raw :: doomed(raw) == IsActualBanTimestampExpired(raw, now)
  {
    raw => IsActualBanTimestampExpired(raw, now)
  }

  /** `shield:cleanBans` at time `now`, over the `ban:` listing `keys`. */
  function CleanBans(store: Store, keys: seq<string>, now: int): (r: Sweep)
    requires IsListing(store, "ban:", keys)
    ensures forall k :: !StartsWith(k, "ban:") ==> Get(r.store, k) == Get(store, k)
    ensures forall k :: k in store && StartsWith(k, "ban:") ==>
              (k !in r.store <==> IsActualBanTimestampExpired(Some(store[k]), now))
    ensures forall k :: k in r.store ==> k in store && r.store[k] == store[k]
    ensures forall k :: k in r.store && StartsWith(k, "ban:") ==>
              ToNumber(r.store[k]).Some? && ToNumber(r.store[k]).value > now
    ensures r.cleanedCount == |store.Keys - r.store.Keys|
  {
    var r := SweepKeys(store, keys, BanDoomed(now));
    CountIsRemovedKeys(store, keys, BanDoomed(now));
    assert forall k :: k in r.store ==> Get(r.store, k) == Get(store, k);
    r
  }

  /** A sweep in which no listed key is condemned changes nothing and reports 0. */
  lemma SweepNothingDoomed(store: Store, keys: seq<string>, doomed: Option<Value> -> bool)
    requires Distinct(keys)
    requires forall i :: 0 <= i < |keys| ==> !doomed(Get(store, keys[i]))
    ensures SweepKeys(store, keys, doomed) == Sweep(store, 0)
  {
    var r := SweepKeys(store, keys, doomed);
    assert Condemned(store, keys, doomed) == {};
    assert r.store.Keys == store.Keys by {
      forall k ensures k in r.store <==> k in store {
        assert Get(r.store, k) == Get(store, k);
      }
    }
    forall k | k in store ensures r.store[k] == store[k] {
      assert Get(r.store, k) == Get(store, k);
    }
  }

  /** A second ban sweep at the same time, over the new listing, removes nothing. */
  lemma CleanBansIdempotent(store: Store, keys: seq<string>, keys2: seq<string>, now: int)
    requires IsListing(store, "ban:", keys)
    requires IsListing(CleanBans(store, keys, now).store, "ban:", keys2)
    ensures var after := CleanBans(store, keys, now).store;
            CleanBans(after, keys2, now) == Sweep(after, 0)
  {
    var after := CleanBans(store, keys, now).store;
    SweepNothingDoomed(after, keys2, BanDoomed(now));
  }

  /**
   `cleanIpData`'s test: the entry is null or falsy, has no numeric `time`,
   or its window started more than `ttlMs` before `now`.
   */
  predicate IsStaleIpEntry(raw: Option<Value>, ttlMs: int, now: int) {
    !Truthy(raw) || !(raw.value.Record? && raw.value.time.Some?) || now - raw.value.time.value > ttlMs
  }

  function IpDoomed(ttlMs: int, now: int): (doomed: Option<Value> -> bool)
    ensures forall raw :: doomed(raw) == IsStaleIpEntry(raw, ttlMs, now)
  {
    raw => IsStaleIpEntry(raw, ttlMs, now)
  }

  /** The sweep is switched off: no TTL, or a TTL that is not positive. */
  predicate TtlDisabled(ttlSeconds: Option<int>) {
    ttlSeconds.None? || ttlSeconds.value <= 0
  }

  /** `shield:cleanIpData` at time `now`, over the `ip:` listing `keys`, with TTL `ttlSeconds`. */
  function CleanIpData(store: Store, keys: seq<string>, ttlSeconds: Option<int>, now: int): (r: Sweep)
    requires IsListing(store, "ip:", keys)
    ensures TtlDisabled(ttlSeconds) ==> r == Sweep(store, 0)
    ensures forall k :: !StartsWith(k, "ip:") ==> Get(r.store, k) == Get(store, k)
    ensures forall k :: k in r.store ==> k in store && r.store[k] == store[k]
    ensures !TtlDisabled(ttlSeconds) ==>
              forall k :: k in store && StartsWith(k, "ip:") ==>
                (k !in r.store <==> IsStaleIpEntry(Some(store[k]), ttlSeconds.value * 1000, now))
    ensures !TtlDisabled(ttlSeconds) ==>
              forall k :: k in r.store && StartsWith(k, "ip:") ==>
                r.store[k].Record? && r.store[k].time.Some? && now - r.store[k].time.value <= ttlSeconds.value * 1000
    ensures r.cleanedCount == |store.Keys - r.store.Keys|
  {
    if TtlDisabled(ttlSeconds) then
      assert store.Keys - store.Keys == {};
      Sweep(store, 0)
    else
      var r := SweepKeys(store, keys, IpDoomed(ttlSeconds.value * 1000, now));
      CountIsRemovedKeys(store, keys, IpDoomed(ttlSeconds.value * 1000, now));
      assert forall k :: k in r.store ==> Get(r.store, k) == Get(store, k);
      r
  }

  /** A second IP sweep at the same time, over the new listing, removes nothing. */
  lemma CleanIpDataIdempotent(store: Store, keys: seq<string>, keys2: seq<string>, ttlSeconds: Option<int>, now: int)
    requires IsListing(store, "ip:", keys)
    requires IsListing(CleanIpData(store, keys, ttlSeconds, now).store, "ip:", keys2)
    ensures var after := CleanIpData(store, keys, ttlSeconds, now).store;
            CleanIpData(after, keys2, ttlSeconds, now) == Sweep(after, 0)
  {
    if !TtlDisabled(ttlSeconds) {
      var after := CleanIpData(store, keys, ttlSeconds, now).store;
      SweepNothingDoomed(after, keys2, IpDoomed(ttlSeconds.value * 1000, now));
    }
  }
}
