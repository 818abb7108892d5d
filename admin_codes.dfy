/** app/api/admin/codes/route.ts: the administrator's list of redemption codes, each
    parsed from its stored value, used codes first (latest first), unused codes last in
    scan order. */
module AdminCodes {
  import opened Util
  import opened Text
  import opened CodeStore
  import opened StableSort

  datatype CodeStatus = Unused | Used

  /** `CodeInfo`: `usedAt` is `None` for an unused code and for a timestamp that does not
      parse (`NaN`, which JSON prints as `null`). */
  datatype CodeInfo = CodeInfo(code: string, status: CodeStatus, usedAt: Option<int>)

  datatype ListResponse = Listed(codes: seq<CodeInfo>) | ListFailed(status: nat, error: string)

  const WrongPasswordError := "密码错误"
  const QueryError := "查询失败"

  /** `password !== process.env.ADMIN_PASSWORD`, with a missing header (`null`) and an unset
      variable (`undefined`) never equal: access needs both, and the same string. */
  predicate PasswordMatches(header: Option<string>, adminPassword: Option<string>) {
    header.Some? && adminPassword.Some? && header.value == adminPassword.value
  }

  /** The element of `allKeys.map(...)` for one key and its `mget` value. */
  function ParseCodeInfo(key: string, value: Option<string>): (info: CodeInfo)
    ensures info.code == ReplaceFirst(key, CodePrefix, "")
    ensures info.status == Used <==> value.Some? && StartsWith(value.value, UsedPrefix)
    ensures info.status == Used ==> info.usedAt == ParseIntPrefix(value.value[5..], 10)
    ensures info.status == Unused ==> info.usedAt == None
  {
    var code := ReplaceFirst(key, CodePrefix, "");
    if value.Some? && value.value != [] && StartsWith(value.value, UsedPrefix) then
      CodeInfo(code, Used, ParseIntPrefix(value.value[5..], 10))
    else
      CodeInfo(code, Unused, None)
  }

  /** The key of a code is read back as the code. */
  lemma CodeOfKey(code: string, value: Option<string>)
    ensures ParseCodeInfo(CodeKey(code), value).code == code
  {
    ReplaceFirstOfPrefix(CodePrefix, code);
  }

  /** A code redeemed at `now` is listed as used at `now`; one still unused is listed as
      unused. */
  lemma ListedState(key: string, now: nat)
    ensures ParseCodeInfo(key, Some(UsedValue(now))).status == Used
    ensures ParseCodeInfo(key, Some(UsedValue(now))).usedAt == Some(now)
    ensures ParseCodeInfo(key, Some(UnusedValue)) == ParseCodeInfo(key, None)
  {
    DecimalRoundTrip(now, []);
    assert NatToDecimal(now) + [] == NatToDecimal(now);
    UnusedIsNotUsed();
  }

  /** The parsed list before sorting: one entry per scanned key, in scan order. */
  function ParsedCodes(keys: seq<string>, codes: map<string, string>): (infos: seq<CodeInfo>)
    ensures |infos| == |keys|
    ensures forall i :: 0 <= i < |keys| ==> infos[i] == ParseCodeInfo(keys[i], Lookup(codes, keys[i]))
  {
    seq(|keys|, i requires 0 <= i < |keys| => ParseCodeInfo(keys[i], Lookup(codes, keys[i])))
  }

  /** The comparator of `codes.sort` as a descending key: used codes rank above unused
      ones, used codes by `usedAt ?? 0`; unused codes all tie. */
  function ListingKey(c: CodeInfo): SortKey {
    if c.status == Used then SortKey(1, c.usedAt.GetOr(0)) else SortKey(0, 0)
  }

  /** `GET /api/admin/codes`, with `keys` the keys the SCAN over `code:*` returned and
      `storeUp` whether the store answers. The store is only read. */
  method List(store: Store, header: Option<string>, adminPassword: Option<string>, keys: seq<string>, storeUp: bool)
    returns (r: ListResponse)
    ensures !PasswordMatches(header, adminPassword) ==> r == ListFailed(401, WrongPasswordError)
    ensures PasswordMatches(header, adminPassword) && !storeUp ==> r == ListFailed(500, QueryError)
    ensures PasswordMatches(header, adminPassword) && storeUp ==>
      r == Listed(InsertionSort(ParsedCodes(keys, store.codes), ListingKey))
    ensures PasswordMatches(header, adminPassword) && storeUp && keys == [] ==> r == Listed([])
  {
    if !PasswordMatches(header, adminPassword) {
      return ListFailed(401, WrongPasswordError);
    }
    if !storeUp {
      return ListFailed(500, QueryError);
    }
    if |keys| == 0 {
      return Listed([]);
    }
    var stored := store.codes;
    var values := seq(|keys|, i requires 0 <= i < |keys| => Lookup(stored, keys[i]));
    var infos := seq(|keys|, i requires 0 <= i < |keys| => ParseCodeInfo(keys[i], values[i]));
    assert infos == ParsedCodes(keys, store.codes);
    var a := new CodeInfo[|infos|](i requires 0 <= i < |infos| => infos[i]);
    assert a[..] == infos;
    SortDescending(a, ListingKey);
    r := Listed(a[..]);
  }

  // ---------------------------------------------------------------------------
  // The order of the listing

  /** The unused entries of a list, in order. */
  function UnusedOnes(s: seq<CodeInfo>): (u: seq<CodeInfo>)
    ensures forall c :: c in u ==> c in s && c.status == Unused
    decreases |s|
  {
    if |s| == 0 then []
    else UnusedOnes(s[..|s| - 1]) + (if s[|s| - 1].status == Unused then [s[|s| - 1]] else [])
  }

  lemma {:induction false} UnusedOnesAreTies(s: seq<CodeInfo>)
    ensures UnusedOnes(s) == WithKey(s, ListingKey, SortKey(0, 0))
    decreases |s|
  {
    if |s| > 0 {
      UnusedOnesAreTies(s[..|s| - 1]);
    }
  }

  /** The listing holds exactly the parsed entries, one per key; every used entry comes
      before every unused one; used entries are in non-increasing order of `usedAt`
      (a missing one counting as 0), entries with the same time keep their scan order,
      and the unused entries keep their scan order. */
  lemma ListingOrder(keys: seq<string>, codes: map<string, string>)
    ensures var parsed := ParsedCodes(keys, codes);
      var listed := InsertionSort(parsed, ListingKey);
      && multiset(listed) == multiset(parsed) && |listed| == |keys|
      && (forall i, j :: 0 <= i < j < |listed| && listed[j].status == Used ==> listed[i].status == Used)
      && (forall i, j :: 0 <= i < j < |listed| && listed[i].status == Used && listed[j].status == Used ==>
            listed[i].usedAt.GetOr(0) >= listed[j].usedAt.GetOr(0))
      && (forall t :: WithKey(listed, ListingKey, SortKey(1, t)) == WithKey(parsed, ListingKey, SortKey(1, t)))
      && UnusedOnes(listed) == UnusedOnes(parsed)
  {
    var parsed := ParsedCodes(keys, codes);
    var listed := InsertionSort(parsed, ListingKey);
    SortIsPermutation(parsed, ListingKey);
    SortIsSorted(parsed, ListingKey);
    forall i, j | 0 <= i < j < |listed|
      ensures !Below(ListingKey(listed[i]), ListingKey(listed[j]))
    {
    }
    forall t ensures WithKey(listed, ListingKey, SortKey(1, t)) == WithKey(parsed, ListingKey, SortKey(1, t)) {
      SortIsStable(parsed, ListingKey, SortKey(1, t));
    }
    SortIsStable(parsed, ListingKey, SortKey(0, 0));
    UnusedOnesAreTies(listed);
    UnusedOnesAreTies(parsed);
  }
}
