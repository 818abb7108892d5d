/** app/api/redeem/route.ts: redeeming a code turns its stored value from `unused` into
    `used:<now>` and hands out a usage token. */
module Redeem {
  import opened Util
  import opened Text
  import opened CodeStore

  /** The `code` field of the JSON body. */
  datatype CodeField = Missing | NotString | Str(s: string)

  /** The request body: JSON that did not parse, or the parsed `code` field. */
  datatype RedeemBody = Malformed | Body(code: CodeField)

  datatype RedeemResponse = Redeemed(token: string) | Failed(status: nat, error: string)

  const EnterCodeError := "请输入兑换码"
  const InvalidCodeError := "无效的兑换码"
  const AlreadyUsedError := "该兑换码已被使用"
  const BadStateError := "兑换码状态异常"
  const ServerError := "服务器错误，请稍后重试"

  /** The route goes on only for a non-empty string `code` (`!code || typeof code !== 'string'`
      rejects the rest). */
  predicate HasCode(body: RedeemBody) {
    body.Body? && body.code.Str? && body.code.s != []
  }

  /** The normalised code, `code.trim().toUpperCase()`. */
  function Normalised(code: string): (t: string)
    ensures |t| <= |code|
    ensures forall i :: 0 <= i < |t| ==> !('a' <= t[i] <= 'z')
  {
    ToUpperAscii(Trim(code))
  }

  /** The key looked up for a submitted code. */
  function RedeemKey(code: string): string {
    CodeKey(Normalised(code))
  }

  /** The outcome of `POST /api/redeem` and the store afterwards. `sign` stands for
      `signUsageToken` (`None` when signing throws), `storeUp` for whether the store
      answers, `now` for `Date.now()`. */
  function RedeemStep(codes: map<string, string>, body: RedeemBody, now: nat,
                      sign: string -> Option<string>, storeUp: bool): (out: (RedeemResponse, map<string, string>))
    ensures body.Malformed? ==> out == (Failed(500, ServerError), codes)
    ensures body.Body? && !HasCode(body) ==> out == (Failed(400, EnterCodeError), codes)
    ensures HasCode(body) && !storeUp ==> out == (Failed(500, ServerError), codes)
    ensures HasCode(body) && storeUp ==>
      var key := RedeemKey(body.code.s);
      && (key !in codes ==> out == (Failed(400, InvalidCodeError), codes))
      && (key in codes && StartsWith(codes[key], UsedPrefix) ==> out == (Failed(400, AlreadyUsedError), codes))
      && (key in codes && codes[key] == UnusedValue ==>
            && out.1 == codes[key := UsedValue(now)]
            && out.0 == (match sign(Normalised(body.code.s))
                         case Some(token) => Redeemed(token)
                         case None => Failed(500, ServerError)))
      && (key in codes && codes[key] != UnusedValue && !StartsWith(codes[key], UsedPrefix) ==>
            out == (Failed(500, BadStateError), codes))
    // The store changes only by redeeming an unused code, and then only at its key.
    ensures out.1 != codes ==>
      && HasCode(body) && storeUp
      && RedeemKey(body.code.s) in codes && codes[RedeemKey(body.code.s)] == UnusedValue
      && out.1 == codes[RedeemKey(body.code.s) := UsedValue(now)]
    // A token is handed out only for a code that was unused and is now used.
    ensures out.0.Redeemed? ==>
      && HasCode(body) && storeUp
      && RedeemKey(body.code.s) in codes && codes[RedeemKey(body.code.s)] == UnusedValue
      && out.1[RedeemKey(body.code.s)] == UsedValue(now)
  {
    if body.Malformed? then (Failed(500, ServerError), codes)
    else if !HasCode(body) then (Failed(400, EnterCodeError), codes)
    else if !storeUp then (Failed(500, ServerError), codes)
    else
      var key := RedeemKey(body.code.s);
      UnusedIsNotUsed();
      match Lookup(codes, key)
      case None => (Failed(400, InvalidCodeError), codes)
      case Some(value) =>
        if StartsWith(value, UsedPrefix) then (Failed(400, AlreadyUsedError), codes)
        else if value == UnusedValue then
          var after := codes[key := UsedValue(now)];
          match sign(Normalised(body.code.s))
          case Some(token) => (Redeemed(token), after)
          case None => (Failed(500, ServerError), after)
        else (Failed(500, BadStateError), codes)
  }

  /** `POST /api/redeem` on the store. */
  method Post(store: Store, body: RedeemBody, now: nat, sign: string -> Option<string>, storeUp: bool)
    returns (r: RedeemResponse)
    modifies store
    ensures (r, store.codes) == RedeemStep(old(store.codes), body, now, sign, storeUp)
  {
    if body.Malformed? {
      return Failed(500, ServerError);
    }
    if !body.code.Str? || body.code.s == [] {
      return Failed(400, EnterCodeError);
    }
    var trimmedCode := Normalised(body.code.s);
    if !storeUp {
      return Failed(500, ServerError);
    }
    var key := CodeKey(trimmedCode);
    var value := Lookup(store.codes, key);
    if value.None? {
      return Failed(400, InvalidCodeError);
    }
    if StartsWith(value.value, UsedPrefix) {
      return Failed(400, AlreadyUsedError);
    }
    if value.value == UnusedValue {
      store.Set(key, UsedValue(now));
      var token := sign(trimmedCode);
      if token.None? {
        return Failed(500, ServerError);
      }
      return Redeemed(token.value);
    }
    r := Failed(500, BadStateError);
  }

  /** A code can be redeemed once: after a redemption of an unused code (whether or not
      the token could be signed), every later attempt with a code that normalises to the
      same key is told the code is already used, and changes nothing. */
  lemma RedeemOnce(codes: map<string, string>, body: RedeemBody, now: nat, sign: string -> Option<string>,
                   again: RedeemBody, later: nat, sign2: string -> Option<string>)
    requires HasCode(body) && HasCode(again)
    requires RedeemKey(again.code.s) == RedeemKey(body.code.s)
    requires RedeemKey(body.code.s) in codes && codes[RedeemKey(body.code.s)] == UnusedValue
    ensures var after := RedeemStep(codes, body, now, sign, true).1;
      RedeemStep(after, again, later, sign2, true) == (Failed(400, AlreadyUsedError), after)
  {
    var after := RedeemStep(codes, body, now, sign, true).1;
    assert after[RedeemKey(body.code.s)] == UsedValue(now);
  }
}
