/** lib/usage.ts: the device fingerprint (a 32-bit string hash printed in base 36) and
    the free-usage counter kept per fingerprint in the key-value store. */
module Usage {
  import opened Util
  import opened Text

  /** `FREE_USES`: the number of free pattern generations per device. */
  const FreeUses := 1

  const TwoTo31 := 0x8000_0000
  const TwoTo32 := 0x1_0000_0000

  // ---------------------------------------------------------------------------
  // 32-bit integer arithmetic

  /** ECMAScript `ToInt32`: the integer congruent to `x` modulo 2^32 in [-2^31, 2^31). */
  function ToInt32(x: int): (r: int)
    ensures -TwoTo31 <= r < TwoTo31
    ensures (x - r) % TwoTo32 == 0
  {
    (x + TwoTo31) % TwoTo32 - TwoTo31
  }

  /** `ToInt32` only depends on its argument modulo 2^32. */
  lemma ToInt32Periodic(x: int, k: int)
    ensures ToInt32(x + k * TwoTo32) == ToInt32(x)
  {
  }

  /** One step of the loop, `((hash << 5) - hash) + char` followed by `hash & hash`,
      is the 32-bit reduction of `31 * hash + char`, whatever representative of the
      previous hash is taken. */
  lemma HashStep(p: int, c: int)
    ensures ToInt32(ToInt32(ToInt32(p) * 32) - ToInt32(p) + c) == ToInt32(31 * p + c)
  {
    var h := ToInt32(p);
    var k1 := (p - h) / TwoTo32;
    assert p == h + k1 * TwoTo32;
    var s := ToInt32(h * 32);
    var k2 := (h * 32 - s) / TwoTo32;
    assert h * 32 == s + k2 * TwoTo32;
    assert s - h + c == (31 * p + c) + (-(31 * k1) - k2) * TwoTo32;
    ToInt32Periodic(31 * p + c, -(31 * k1) - k2);
  }

  // ---------------------------------------------------------------------------
  // generateFingerprint

  /** The polynomial string hash `s[0] * 31^(n-1) + ... + s[n-1]` over the character codes,
      without any reduction. */
  function Polynomial(s: string): int
    decreases |s|
  {
    if |s| == 0 then 0 else 31 * Polynomial(s[..|s| - 1]) + (s[|s| - 1] as int)
  }

  function Abs(x: int): nat {
    if x < 0 then -x else x
  }

  /** `fp_` followed by the base-36 digits of the absolute value of the 32-bit hash of
      `ip|userAgent`. */
  function Fingerprint(ip: string, userAgent: string): string {
    "fp_" + NatToRadix(Abs(ToInt32(Polynomial(ip + "|" + userAgent))), 36)
  }

  /** `generateFingerprint(ip, userAgent)`: the hash loop over the character codes with
      the shift-and-subtract step and the 32-bit truncation. */
  method GenerateFingerprint(ip: string, userAgent: string) returns (fp: string)
    ensures fp == Fingerprint(ip, userAgent)
  {
    var hash := 0;
    var str := ip + "|" + userAgent;
    for i := 0 to |str|
      invariant hash == ToInt32(Polynomial(str[..i]))
    {
      var ch := str[i] as int;
      HashStep(Polynomial(str[..i]), ch);
      assert str[..i + 1][..i] == str[..i];
      hash := ToInt32(ToInt32(hash * 32) - hash + ch);
    }
    assert str[..|str|] == str;
    fp := "fp_" + NatToRadix(Abs(hash), 36);
  }

  /** The base-36 digits `toString(36)` prints are `0`-`9` and lower-case `a`-`z`. */
  lemma {:induction false} Base36Lower(n: nat)
    ensures forall i :: 0 <= i < |NatToRadix(n, 36)| ==>
      '0' <= NatToRadix(n, 36)[i] <= '9' || 'a' <= NatToRadix(n, 36)[i] <= 'z'
    decreases n
  {
    if n >= 36 {
      DivStep(n, 36);
      Base36Lower(n / 36);
    }
  }

  /** A fingerprint is `fp_` and at least one lower-case base-36 digit; the digits read
      back as the absolute value of a 32-bit integer, so at most 2^31. */
  lemma FingerprintShape(ip: string, userAgent: string)
    ensures var fp := Fingerprint(ip, userAgent);
      && |fp| >= 4 && fp[..3] == "fp_"
      && (forall i :: 3 <= i < |fp| ==> '0' <= fp[i] <= '9' || 'a' <= fp[i] <= 'z')
      && (forall i :: 3 <= i < |fp| ==> DigitValue(fp[i], 36).Some?)
      && RadixValue(fp[3..], 36) == Abs(ToInt32(Polynomial(ip + "|" + userAgent)))
      && RadixValue(fp[3..], 36) <= TwoTo31
  {
    var n := Abs(ToInt32(Polynomial(ip + "|" + userAgent)));
    var fp := Fingerprint(ip, userAgent);
    var digits := NatToRadix(n, 36);
    assert fp[3..] == digits;
    Base36Lower(n);
    RadixRoundTrip(n, 36);
    forall i | 3 <= i < |fp|
      ensures ('0' <= fp[i] <= '9' || 'a' <= fp[i] <= 'z') && DigitValue(fp[i], 36).Some?
    {
      assert fp[i] == digits[i - 3];
    }
  }

  // ---------------------------------------------------------------------------
  // The counter

  /** The store key of a fingerprint's counter. */
  function UsageKey(fingerprint: string): (key: string)
    ensures |key| == |fingerprint| + 6 && key[..6] == "usage:" && key[6..] == fingerprint
  {
    "usage:" + fingerprint
  }

  /** What `checkFreeUsage` tells the client. */
  datatype UsageInfo = UsageInfo(allowed: bool, usedCount: int, remaining: int)

  /** `checkFreeUsage(fingerprint)` over the stored counters: a missing counter counts
      as 0; the device may still generate while it has used fewer than `FreeUses`. */
  function CheckFreeUsage(counts: map<string, int>, fingerprint: string): (u: UsageInfo)
    ensures u.usedCount == GetOrDefault(counts, UsageKey(fingerprint), 0)
    ensures u.allowed <==> u.usedCount < FreeUses
    ensures u.remaining == if u.usedCount < FreeUses then FreeUses - u.usedCount else 0
    ensures u.remaining >= 0 && (u.allowed <==> u.remaining > 0)
  {
    var count := GetOrDefault(counts, UsageKey(fingerprint), 0);
    UsageInfo(count < FreeUses, count, if 0 > FreeUses - count then 0 else FreeUses - count)
  }

  /** `redis.incr(key)`: the counter, 0 when missing, goes up by exactly one; every other
      key keeps its value. */
  function Incremented(counts: map<string, int>, key: string): (after: map<string, int>)
    ensures key in after && after[key] == GetOrDefault(counts, key, 0) + 1
    ensures forall k :: k != key ==> (k in after <==> k in counts)
    ensures forall k :: k != key && k in counts ==> after[k] == counts[k]
  {
    counts[key := GetOrDefault(counts, key, 0) + 1]
  }

  /** The counters of the key-value store. */
  class CounterStore {
    var counts: map<string, int>

    constructor ()
      ensures counts == map[]
    {
      counts := map[];
    }

    /** `consumeFreeUsage(fingerprint)`: increments the fingerprint's counter and returns
        the new value. */
    method ConsumeFreeUsage(fingerprint: string) returns (n: int)
      modifies this
      ensures counts == Incremented(old(counts), UsageKey(fingerprint))
      ensures n == old(GetOrDefault(counts, UsageKey(fingerprint), 0)) + 1
    {
      var key := UsageKey(fingerprint);
      n := GetOrDefault(counts, key, 0) + 1;
      counts := counts[key := n];
    }
  }

  /** Once a device with a non-negative counter has consumed its free use, it is no longer
      allowed, and other devices' answers do not change. */
  lemma ConsumedIsDenied(counts: map<string, int>, fingerprint: string, other: string)
    requires GetOrDefault(counts, UsageKey(fingerprint), 0) >= 0
    requires other != fingerprint
    ensures !CheckFreeUsage(Incremented(counts, UsageKey(fingerprint)), fingerprint).allowed
    ensures CheckFreeUsage(Incremented(counts, UsageKey(fingerprint)), other) == CheckFreeUsage(counts, other)
  {
    var a, b := UsageKey(fingerprint), UsageKey(other);
    assert a[6..] != b[6..];
  }
}
