/** app/api/check-usage/route.ts: the GET endpoint reports the device's free usage, the
    POST endpoint either accepts a redeemed usage token or spends the free use. */
module CheckUsage {
  import opened Util
  import opened Text
  import opened Usage

  /** The request headers the route reads; `None` is a header that is not present. */
  datatype Headers = Headers(forwardedFor: Option<string>, realIp: Option<string>, userAgent: Option<string>)

  datatype ClientInfo = ClientInfo(ip: string, ua: string)

  /** The first entry of `x-forwarded-for`, trimmed (empty when the header is absent). */
  function ForwardedIp(h: Headers): (ip: string)
    ensures ',' !in ip
    ensures ip == [] || (!IsJsWhitespace(ip[0]) && !IsJsWhitespace(ip[|ip| - 1]))
  {
    if h.forwardedFor.None? then ""
    else
      var first := FirstField(h.forwardedFor.value, ',');
      TrimIsSlice(first);
      Trim(first)
  }

  /** `getClientInfo`: the first forwarded address when it is not empty, else a non-empty
      `x-real-ip`, else `0.0.0.0`; the user agent, or `unknown` when it is missing or
      empty. The address and the agent are never empty. */
  function GetClientInfo(h: Headers): (info: ClientInfo)
    ensures info.ip != [] && info.ua != []
    ensures ForwardedIp(h) != [] ==> info.ip == ForwardedIp(h)
    ensures ForwardedIp(h) == [] && h.realIp.Some? && h.realIp.value != [] ==> info.ip == h.realIp.value
    ensures ForwardedIp(h) == [] && (h.realIp.None? || h.realIp.value == []) ==> info.ip == "0.0.0.0"
    ensures h.userAgent.Some? && h.userAgent.value != [] ==> info.ua == h.userAgent.value
    ensures h.userAgent.None? || h.userAgent.value == [] ==> info.ua == "unknown"
  {
    var forwarded := ForwardedIp(h);
    var ip :=
      if forwarded != [] then forwarded
      else if h.realIp.Some? && h.realIp.value != [] then h.realIp.value
      else "0.0.0.0";
    var ua := if h.userAgent.Some? && h.userAgent.value != [] then h.userAgent.value else "unknown";
    ClientInfo(ip, ua)
  }

  /** The fingerprint of the requesting device. */
  function ClientFingerprint(h: Headers): string {
    var info := GetClientInfo(h);
    Fingerprint(info.ip, info.ua)
  }

  /** The answer given when the store cannot be reached: one free use left. */
  const FallbackUsage := UsageInfo(true, 0, 1)

  /** `GET`: the free-usage report of the requesting device, or the fallback when the store
      fails. It changes no counter (the store is not in its frame). */
  method Get(store: CounterStore, h: Headers, storeUp: bool) returns (u: UsageInfo)
    ensures storeUp ==> u == CheckFreeUsage(store.counts, ClientFingerprint(h))
    ensures !storeUp ==> u == FallbackUsage
    ensures u.remaining >= 0 && (u.allowed <==> u.remaining > 0)
  {
    var info := GetClientInfo(h);
    var fingerprint := GenerateFingerprint(info.ip, info.ua);
    if !storeUp {
      return FallbackUsage;
    }
    u := CheckFreeUsage(store.counts, fingerprint);
  }

  /** The `token` field of a POST body: missing, a string, or another JSON value
      (`truthy` says whether JavaScript counts it as true). */
  datatype TokenField = NoToken | Text(s: string) | NonString(truthy: bool)

  /** The body of a POST: JSON that did not parse, or its `token` field. */
  datatype PostBody = Malformed | Body(token: TokenField)

  /** How a generation was granted: `method: 'token' | 'free' | 'fallback'`. */
  datatype Grant = ByToken | Free | Fallback

  datatype PostResponse = Allowed(grant: Grant) | Denied(status: nat, error: string)

  const TokenError := "token 无效或已过期"
  const UsedUpError := "免费次数已用完，请输入兑换码"

  /** `body.token` is truthy: a non-empty string, or a non-string value that counts as true. */
  predicate HasToken(body: PostBody) {
    && body.Body?
    && match body.token
       case NoToken => false
       case Text(s) => s != []
       case NonString(truthy) => truthy
  }

  /** `verifyUsageToken(token).valid`, with `verify` deciding for strings. The JWT library
      throws on anything that is not a string, which `verifyUsageToken` reports as invalid. */
  predicate TokenValid(token: TokenField, verify: string -> bool) {
    token.Text? && verify(token.s)
  }

  /** `POST`, with `verify` standing for the signature and expiry check of
      `verifyUsageToken` and `storeUp` for whether the counter store answers. A token
      decides alone: a valid one is accepted, an invalid one refused with 401, and
      neither touches the counters. Without a token the free use is spent when there is
      one (the counter goes up by exactly one), and refused with 403 otherwise. A body
      that does not parse, or a store that fails, lets the request through without
      counting it. */
  method Post(store: CounterStore, h: Headers, body: PostBody, verify: string -> bool, storeUp: bool)
    returns (r: PostResponse)
    modifies store
    ensures body.Malformed? ==> r == Allowed(Fallback) && store.counts == old(store.counts)
    ensures HasToken(body) && TokenValid(body.token, verify) ==>
      r == Allowed(ByToken) && store.counts == old(store.counts)
    ensures HasToken(body) && !TokenValid(body.token, verify) ==>
      r == Denied(401, TokenError) && store.counts == old(store.counts)
    ensures body.Body? && !HasToken(body) && !storeUp ==>
      r == Allowed(Fallback) && store.counts == old(store.counts)
    ensures body.Body? && !HasToken(body) && storeUp && !CheckFreeUsage(old(store.counts), ClientFingerprint(h)).allowed ==>
      r == Denied(403, UsedUpError) && store.counts == old(store.counts)
    ensures body.Body? && !HasToken(body) && storeUp && CheckFreeUsage(old(store.counts), ClientFingerprint(h)).allowed ==>
      r == Allowed(Free) && store.counts == Incremented(old(store.counts), UsageKey(ClientFingerprint(h)))
  {
    if body.Malformed? {
      return Allowed(Fallback);
    }
    if HasToken(body) {
      if TokenValid(body.token, verify) {
        return Allowed(ByToken);
      }
      return Denied(401, TokenError);
    }
    var info := GetClientInfo(h);
    var fingerprint := GenerateFingerprint(info.ip, info.ua);
    if !storeUp {
      return Allowed(Fallback);
    }
    var usage := CheckFreeUsage(store.counts, fingerprint);
    if !usage.allowed {
      return Denied(403, UsedUpError);
    }
    var _ := store.ConsumeFreeUsage(fingerprint);
    r := Allowed(Free);
  }
}
