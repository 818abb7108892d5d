/** The redemption codes in the key-value store: key `code:<CODE>`, value `unused` until
    the code is redeemed at time `t`, then `used:<t>`. Shared by the redeem, listing
    and generation routes. */
module CodeStore {
  import opened Util
  import opened Text

  const CodePrefix := "code:"
  const UsedPrefix := "used:"
  const UnusedValue := "unused"

  /** The store key of a code. */
  function CodeKey(code: string): (key: string)
    ensures |key| == |code| + 5 && key[..5] == CodePrefix && key[5..] == code
  {
    CodePrefix + code
  }

  /** Different codes have different keys. */
  lemma CodeKeyInjective(a: string, b: string)
    requires CodeKey(a) == CodeKey(b)
    ensures a == b
  {
    assert a == CodeKey(a)[5..];
  }

  /** The value written when a code is redeemed at `now` (`used:${Date.now()}`). */
  function UsedValue(now: nat): (value: string)
    ensures StartsWith(value, UsedPrefix)
    ensures value[5..] == NatToDecimal(now)
    ensures value != UnusedValue
  {
    assert (UsedPrefix + NatToDecimal(now))[..5] == UsedPrefix;
    UsedPrefix + NatToDecimal(now)
  }

  /** The two states are told apart by the prefix test alone. */
  lemma UnusedIsNotUsed()
    ensures !StartsWith(UnusedValue, UsedPrefix)
  {
    assert UnusedValue[1] != UsedPrefix[1];
  }

  /** `redis.get(key)` on a map: `None` for a missing key. */
  function Lookup(m: map<string, string>, key: string): (v: Option<string>)
    ensures v.Some? <==> key in m
    ensures v.Some? ==> v.value == m[key]
  {
    if key in m then Some(m[key]) else None
  }

  /** The string values of the store. */
  class Store {
    var codes: map<string, string>

    constructor ()
      ensures codes == map[]
    {
      codes := map[];
    }

    /** `redis.set(key, value)`: that key now holds `value`, every other key is unchanged. */
    method Set(key: string, value: string)
      modifies this
      ensures codes == old(codes)[key := value]
    {
      codes := codes[key := value];
    }
  }
}
