/** Storage-key construction (`createKey.ts`). */
module Keys {
  import opened Options
  import opened Strings

  /** The prefix used when the caller supplies none. */
  const DefaultPrefix := "ip"

  /**
   `createKey({ipAddress, prefix?, path?})`: `prefix:path:ip` when a
   non-empty path is given, `prefix:ip` otherwise.
   */
  function CreateKey(ipAddress: string, prefix: Option<string>, path: Option<string>): (key: string)
    ensures StartsWith(key, prefix.GetOr(DefaultPrefix) + ":")
    ensures EndsWith(key, ":" + ipAddress)
    ensures path.Some? && path.value != "" ==> key == prefix.GetOr(DefaultPrefix) + ":" + path.value + ":" + ipAddress
    ensures path.None? || path.value == "" ==> key == prefix.GetOr(DefaultPrefix) + ":" + ipAddress
  {
    var p := prefix.GetOr(DefaultPrefix);
    if path.Some? && path.value != "" then
      var key := p + ":" + path.value + ":" + ipAddress;
      assert key[..|p + ":"|] == p + ":";
      assert key[|key| - |":" + ipAddress|..] == ":" + ipAddress;
      key
    else
      var key := p + ":" + ipAddress;
      assert key[..|p + ":"|] == p + ":";
      assert key[|key| - |":" + ipAddress|..] == ":" + ipAddress;
      key
  }

  /** The address back out of a path-less key: what follows `prefix:`. */
  function AddressOf(key: string, prefix: string): (ip: string)
    requires StartsWith(key, prefix + ":")
    ensures |ip| == |key| - |prefix| - 1
  {
    key[|prefix| + 1..]
  }

  /** Reading the address back inverts building a path-less key. */
  lemma AddressRoundTrip(ipAddress: string, prefix: string)
    ensures AddressOf(CreateKey(ipAddress, Some(prefix), None), prefix) == ipAddress
  {
    var key := CreateKey(ipAddress, Some(prefix), None);
    assert key == prefix + ":" + ipAddress;
    assert key[|prefix| + 1..] == ipAddress;
  }

  /** Distinct addresses get distinct keys under the same prefix. */
  lemma CreateKeyInjective(ip1: string, ip2: string, prefix: Option<string>)
    requires CreateKey(ip1, prefix, None) == CreateKey(ip2, prefix, None)
    ensures ip1 == ip2
  {
    var p := prefix.GetOr(DefaultPrefix);
    AddressRoundTrip(ip1, p);
    AddressRoundTrip(ip2, p);
  }

  /** The counter key the middleware builds inline, `ip:<address>`. */
  function IpKey(ipAddress: string): (key: string)
    ensures StartsWith(key, "ip:") && |key| == |ipAddress| + 3
  {
    "ip:" + ipAddress
  }

  /** The ban key the middleware builds inline, `ban:<address>`. */
  function BanKey(ipAddress: string): (key: string)
    ensures StartsWith(key, "ban:") && |key| == |ipAddress| + 4
  {
    "ban:" + ipAddress
  }

  /** `createKey` with the default prefix, and with prefix `ban`, builds the middleware's two inline keys. */
  lemma CreateKeyMatchesInlineKeys(ipAddress: string)
    ensures CreateKey(ipAddress, None, None) == IpKey(ipAddress)
    ensures CreateKey(ipAddress, Some("ban"), None) == BanKey(ipAddress)
  {
  }

  /** A `ban`-prefixed key never collides with an `ip`-prefixed one, whatever the addresses and paths. */
  lemma BanKeyNeverIpKey(ip1: string, path1: Option<string>, ip2: string, path2: Option<string>)
    ensures CreateKey(ip1, Some("ban"), path1) != CreateKey(ip2, None, path2)
  {
    var b := CreateKey(ip1, Some("ban"), path1);
    var i := CreateKey(ip2, None, path2);
    assert b[0] == "ban:"[0];
    assert i[0] == "ip:"[0];
  }
}
