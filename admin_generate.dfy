/** app/api/admin/generate/route.ts: the administrator creates a batch of random
    eight-character codes, each stored as `unused`. */
module AdminGenerate {
  import opened Util
  import opened Text
  import opened CodeStore

  /** The code alphabet: upper-case letters and digits without the look-alikes I, O, 0, 1. */
  const Alphabet := "ABCDEFGHJKLMNPQRSTUVWXYZ23456789"
  const CodeLength := 8

  /** No character of the alphabet is one of the look-alikes. */
  predicate Unambiguous(c: char) {
    c != 'I' && c != 'O' && c != '0' && c != '1'
  }

  /** A possible result of `generateCode`. */
  ghost predicate WellFormedCode(code: string) {
    |code| == CodeLength && forall i :: 0 <= i < |code| ==> code[i] in Alphabet && Unambiguous(code[i])
  }

  /** `generateCode()`: eight characters, each `chars[Math.floor(Math.random() * 32)]`; the
      random index is an arbitrary choice in [0, 32). */
  method GenerateCode() returns (code: string)
    ensures |code| == CodeLength
    ensures forall i :: 0 <= i < |code| ==> code[i] in Alphabet
    ensures forall i :: 0 <= i < |code| ==> Unambiguous(code[i])
  {
    assert |Alphabet| == 32;
    assert forall k :: 0 <= k < |Alphabet| ==> Unambiguous(Alphabet[k]);
    code := "";
    for i := 0 to CodeLength
      invariant |code| == i
      invariant forall j :: 0 <= j < i ==> code[j] in Alphabet && Unambiguous(code[j])
    {
      var k :| 0 <= k < |Alphabet|;
      code := code + [Alphabet[k]];
    }
  }

  /** The `password` field of the body: missing (`undefined`), a string, or some other
      JSON value. */
  datatype PasswordField = NoPassword | Password(s: string) | OtherValue

  /** `password !== process.env.ADMIN_PASSWORD` fails, i.e. the two are identical: the same
      string, or both `undefined` (a body without `password` passes when the variable is
      unset). */
  predicate Authorized(password: PasswordField, adminPassword: Option<string>) {
    match password
    case NoPassword => adminPassword.None?
    case Password(s) => adminPassword == Some(s)
    case OtherValue => false
  }

  /** The `count` field: missing (so the default 10 applies), or `Number(count)`, a finite
      number or `NaN`. */
  datatype CountField = NoCount | Count(x: real) | NotANumber

  /** The smallest integer at least `x`. */
  function Ceiling(x: real): (n: int)
    ensures n as real >= x && (n - 1) as real < x
  {
    if x.Floor as real == x then x.Floor else x.Floor + 1
  }

  /** The number of loop turns of `for (let i = 0; i < num; i++)` with
      `num = Math.min(Math.max(1, Number(count)), 100)`: 10 when `count` is missing,
      `count` clamped to [1, 100] (a fraction rounds up), and 0 for `NaN`, where every
      comparison fails. */
  function CodeCount(count: CountField): (n: nat)
    ensures count.NoCount? ==> n == 10
    ensures count.Count? ==> 1 <= n <= 100
    ensures count.Count? && count.x <= 1.0 ==> n == 1
    ensures count.Count? && count.x >= 100.0 ==> n == 100
    ensures count.Count? && 1.0 <= count.x <= 100.0 ==> (n - 1) as real < count.x <= n as real
    ensures count.NotANumber? ==> n == 0
  {
    match count
    case NoCount => 10
    case NotANumber => 0
    case Count(x) =>
      var num := if x < 1.0 then 1.0 else if x > 100.0 then 100.0 else x;
      Ceiling(num)
  }

  /** An integer count is simply clamped. */
  lemma IntegerCount(k: int)
    ensures CodeCount(Count(k as real)) == if k < 1 then 1 else if k > 100 then 100 else k
  {
  }

  /** The body: JSON that did not parse, or its `password` and `count` fields. */
  datatype GenerateBody = Malformed | Body(password: PasswordField, count: CountField)

  datatype GenerateResponse = Generated(codes: seq<string>, message: string) | GenerateFailed(status: nat, error: string)

  const WrongPasswordError := "密码错误"
  const GenerateError := "生成失败"

  const SuccessPrefix := "成功生成 "
  const SuccessSuffix := " 个兑换码"

  /** `成功生成 ${n} 个兑换码`. */
  function SuccessMessage(n: nat): (message: string)
    ensures StartsWith(message, SuccessPrefix)
  {
    SuccessPrefix + NatToDecimal(n) + SuccessSuffix
  }

  /** The number in the message reads back with `parseInt`. */
  lemma SuccessMessageCount(n: nat)
    ensures ParseIntPrefix(SuccessMessage(n)[|SuccessPrefix|..], 10) == Some(n)
  {
    ReadNumber(SuccessPrefix, n, SuccessSuffix);
  }

  /** The store after `redis.set('code:' + c, 'unused')` for each code `c` in order. */
  function WriteAll(stored: map<string, string>, codes: seq<string>): map<string, string>
    decreases |codes|
  {
    if |codes| == 0 then stored
    else WriteAll(stored, codes[..|codes| - 1])[CodeKey(codes[|codes| - 1]) := UnusedValue]
  }

  lemma WriteAllSnoc(stored: map<string, string>, codes: seq<string>, i: nat)
    requires i < |codes|
    ensures WriteAll(stored, codes[..i + 1]) == WriteAll(stored, codes[..i])[CodeKey(codes[i]) := UnusedValue]
  {
    assert codes[..i + 1][..i] == codes[..i];
  }

  /** The keys of a batch of codes. */
  function KeysOf(codes: seq<string>): set<string> {
    set c | c in codes :: CodeKey(c)
  }

  /** After the writes every generated code's key holds `unused`, whatever it held before,
      and every other key is as it was. */
  lemma {:induction false} WriteAllEffect(stored: map<string, string>, codes: seq<string>)
    ensures forall c :: c in codes ==> CodeKey(c) in WriteAll(stored, codes) && WriteAll(stored, codes)[CodeKey(c)] == UnusedValue
    ensures forall k :: k !in KeysOf(codes) ==>
      (k in WriteAll(stored, codes) <==> k in stored) && (k in stored ==> WriteAll(stored, codes)[k] == stored[k])
    decreases |codes|
  {
    if |codes| > 0 {
      var init, last := codes[..|codes| - 1], codes[|codes| - 1];
      WriteAllEffect(stored, init);
      assert codes == init + [last];
      assert forall c :: c in codes ==> c in init || c == last;
      assert KeysOf(init) <= KeysOf(codes);
    }
  }

  /** `POST /api/admin/generate`, with `storeUp` whether the store can be reached. */
  method Post(store: Store, body: GenerateBody, adminPassword: Option<string>, storeUp: bool)
    returns (r: GenerateResponse)
    modifies store
    ensures body.Malformed? ==> r == GenerateFailed(500, GenerateError) && store.codes == old(store.codes)
    ensures body.Body? && !Authorized(body.password, adminPassword) ==>
      r == GenerateFailed(401, WrongPasswordError) && store.codes == old(store.codes)
    ensures body.Body? && Authorized(body.password, adminPassword) && !storeUp ==>
      r == GenerateFailed(500, GenerateError) && store.codes == old(store.codes)
    ensures body.Body? && Authorized(body.password, adminPassword) && storeUp ==>
      && r.Generated?
      && |r.codes| == CodeCount(body.count)
      && (forall i :: 0 <= i < |r.codes| ==> WellFormedCode(r.codes[i]))
      && store.codes == WriteAll(old(store.codes), r.codes)
      && r.message == SuccessMessage(|r.codes|)
  {
    if body.Malformed? {
      return GenerateFailed(500, GenerateError);
    }
    if !Authorized(body.password, adminPassword) {
      return GenerateFailed(401, WrongPasswordError);
    }
    var num := CodeCount(body.count);
    if !storeUp {
      return GenerateFailed(500, GenerateError);
    }
    ghost var before := store.codes;
    var codes: seq<string> := [];
    for i := 0 to num
      invariant |codes| == i
      invariant forall j :: 0 <= j < i ==> WellFormedCode(codes[j])
      invariant store.codes == WriteAll(before, codes)
    {
      var code := GenerateCode();
      store.Set(CodeKey(code), UnusedValue);
      codes := codes + [code];
      WriteAllSnoc(before, codes, i);
      assert codes[..i] == codes[..i + 1][..i];
      assert codes[..i + 1] == codes;
    }
    r := Generated(codes, SuccessMessage(|codes|));
  }
}
