/** String helpers with the meaning the JavaScript built-ins give them. */
module Text {
  import opened Util

  /** `s.startsWith(p)`. */
  predicate StartsWith(s: string, p: string) {
    |p| <= |s| && s[..|p|] == p
  }

  /** The characters `String.prototype.trim` and `parseInt` skip: the ECMAScript
      WhiteSpace (TAB, VT, FF, SPACE, NBSP, ZWNBSP and the Zs category) and
      LineTerminator (LF, CR, LS, PS) code points. */
  predicate IsJsWhitespace(c: char) {
    c == '\t' || c == '\n' || c == '\U{000B}' || c == '\U{000C}' || c == '\r' || c == ' '
    || c == '\U{00A0}' || c == '\U{1680}' || ('\U{2000}' <= c <= '\U{200A}')
    || c == '\U{2028}' || c == '\U{2029}' || c == '\U{202F}' || c == '\U{205F}'
    || c == '\U{3000}' || c == '\U{FEFF}'
  }

  // ---------------------------------------------------------------------------
  // trim

  /** Drops the leading whitespace (`trimStart`). */
  function TrimStart(s: string): (r: string)
    ensures |r| <= |s| && r == s[|s| - |r|..]
    ensures forall i :: 0 <= i < |s| - |r| ==> IsJsWhitespace(s[i])
    ensures r == [] || !IsJsWhitespace(r[0])
  {
    if |s| > 0 && IsJsWhitespace(s[0]) then TrimStart(s[1..]) else s
  }

  /** Drops the trailing whitespace (`trimEnd`). */
  function TrimEnd(s: string): (r: string)
    ensures |r| <= |s| && r == s[..|r|]
    ensures forall i :: |r| <= i < |s| ==> IsJsWhitespace(s[i])
    ensures r == [] || !IsJsWhitespace(r[|r| - 1])
  {
    if |s| > 0 && IsJsWhitespace(s[|s| - 1]) then TrimEnd(s[..|s| - 1]) else s
  }

  /** `s.trim()`: the result neither starts nor ends with whitespace. */
  function Trim(s: string): (r: string)
    ensures |r| <= |s|
    ensures r == [] || (!IsJsWhitespace(r[0]) && !IsJsWhitespace(r[|r| - 1]))
  {
    TrimEnd(TrimStart(s))
  }

  /** `r` is `s[i..i + |r|]` and everything of `s` outside that slice satisfies `P`. */
  ghost predicate SliceAt<T>(s: seq<T>, r: seq<T>, i: nat, P: T -> bool) {
    && i + |r| <= |s| && r == s[i..i + |r|]
    && (forall k :: 0 <= k < i ==> P(s[k]))
    && (forall k :: i + |r| <= k < |s| ==> P(s[k]))
  }

  /** `r` is `s[i..i + |r|]` and everything of `s` outside that slice is whitespace. */
  ghost predicate TrimmedAt(s: string, r: string, i: nat) {
    SliceAt(s, r, i, IsJsWhitespace)
  }

  /** A prefix of a suffix of `s`, where what the suffix dropped and what the prefix
      dropped both satisfy `P`, is a slice of `s` with `P` holding outside it. */
  lemma PrefixOfSuffix<T>(s: seq<T>, t: seq<T>, r: seq<T>, P: T -> bool)
    requires |t| <= |s| && t == s[|s| - |t|..]
    requires forall k :: 0 <= k < |s| - |t| ==> P(s[k])
    requires |r| <= |t| && r == t[..|r|]
    requires forall k :: |r| <= k < |t| ==> P(t[k])
    ensures SliceAt(s, r, |s| - |t|, P)
  {
    var i := |s| - |t|;
    forall k | i + |r| <= k < |s| ensures P(s[k]) {
      assert s[k] == t[k - i];
    }
  }

  /** `trim` only cuts whitespace off either end: the result is a contiguous piece of `s`. */
  lemma TrimIsSlice(s: string)
    ensures TrimmedAt(s, Trim(s), |s| - |TrimStart(s)|)
  {
    PrefixOfSuffix(s, TrimStart(s), TrimEnd(TrimStart(s)), IsJsWhitespace);
  }

  // ---------------------------------------------------------------------------
  // case

  /** `c.toUpperCase()` restricted to ASCII letters. */
  function UpperAscii(c: char): char {
    if 'a' <= c <= 'z' then (c as int - 'a' as int + 'A' as int) as char else c
  }

  /** `s.toUpperCase()`, ASCII letters only: the same length, lower-case ASCII letters
      become their upper-case forms and every other character is kept. */
  function ToUpperAscii(s: string): (r: string)
    ensures |r| == |s|
    ensures forall i :: 0 <= i < |s| ==> r[i] == UpperAscii(s[i])
    ensures forall i :: 0 <= i < |s| ==> !('a' <= r[i] <= 'z')
  {
    seq(|s|, i requires 0 <= i < |s| => UpperAscii(s[i]))
  }

  // ---------------------------------------------------------------------------
  // replace (first occurrence) and split

  /** `s.replace(pat, rep)` with a string pattern: only the first occurrence is replaced. */
  function ReplaceFirst(s: string, pat: string, rep: string): string
    decreases |s|
  {
    if |s| < |pat| then s
    else if s[..|pat|] == pat then rep + s[|pat|..]
    else [s[0]] + ReplaceFirst(s[1..], pat, rep)
  }

  /** `StartsWith(s, p)` makes `p` the first occurrence, so replacing it with "" strips the prefix. */
  lemma ReplaceFirstOfPrefix(p: string, rest: string)
    ensures ReplaceFirst(p + rest, p, "") == rest
  {
    assert (p + rest)[..|p|] == p;
    assert (p + rest)[|p|..] == rest;
  }

  /** `s.split(c)[0]`: everything before the first `c` (all of `s` when there is none). */
  function FirstField(s: string, c: char): (r: string)
    ensures |r| <= |s| && r == s[..|r|]
    ensures c !in r
    ensures |r| < |s| ==> s[|r|] == c
  {
    if |s| == 0 then s
    else if s[0] == c then []
    else
      var t := FirstField(s[1..], c);
      assert [s[0]] + t == s[..1 + |t|];
      [s[0]] + t
  }

  /** `s.split(c)` for a single-character separator. */
  function Split(s: string, c: char): (r: seq<string>)
    ensures |r| >= 1
    decreases |s|
  {
    var f := FirstField(s, c);
    if |f| == |s| then [s] else [f] + Split(s[|f| + 1..], c)
  }

  /** `lines.join(sep)`. */
  function Join(lines: seq<string>, sep: string): string {
    if |lines| == 0 then ""
    else if |lines| == 1 then lines[0]
    else lines[0] + sep + Join(lines[1..], sep)
  }

  /** Joining lines that do not contain the separator character and splitting again
      gives the lines back. */
  lemma {:induction false} SplitJoin(lines: seq<string>, c: char)
    requires |lines| >= 1
    requires forall i :: 0 <= i < |lines| ==> c !in lines[i]
    ensures Split(Join(lines, [c]), c) == lines
    decreases |lines|
  {
    var s := Join(lines, [c]);
    if |lines| == 1 {
      FirstFieldWithout(lines[0], c);
    } else {
      var rest := Join(lines[1..], [c]);
      assert s == lines[0] + [c] + rest;
      FirstFieldUpTo(lines[0], c, rest);
      assert s[|lines[0]| + 1..] == rest;
      SplitJoin(lines[1..], c);
    }
  }

  lemma {:induction false} FirstFieldWithout(s: string, c: char)
    requires c !in s
    ensures FirstField(s, c) == s
  {
    if |s| > 0 {
      FirstFieldWithout(s[1..], c);
    }
  }

  lemma {:induction false} FirstFieldUpTo(a: string, c: char, b: string)
    requires c !in a
    ensures FirstField(a + [c] + b, c) == a
  {
    if |a| > 0 {
      assert (a + [c] + b)[1..] == a[1..] + [c] + b;
      FirstFieldUpTo(a[1..], c, b);
    }
  }

  // ---------------------------------------------------------------------------
  // padEnd

  /** `n` spaces. */
  function Spaces(n: nat): (r: string)
    ensures |r| == n && forall i :: 0 <= i < n ==> r[i] == ' '
  {
    seq(n, _ => ' ')
  }

  /** `s.padEnd(n)`: `s` followed by spaces up to length `n`; longer strings are kept whole. */
  function PadEnd(s: string, n: nat): (r: string)
    ensures |r| == if |s| >= n then |s| else n
    ensures r[..|s|] == s
    ensures forall i :: |s| <= i < |r| ==> r[i] == ' '
  {
    if |s| >= n then s else s + Spaces(n - |s|)
  }

  // ---------------------------------------------------------------------------
  // numbers: Number.prototype.toString(radix) for non-negative integers, and parseInt

  /** The digit character for `d` (`0`-`9`, then `a`-`z`), as `toString(radix)` prints it. */
  function DigitChar(d: nat): (c: char)
    requires d < 36
  {
    if d < 10 then ('0' as int + d) as char else ('a' as int + d - 10) as char
  }

  /** The value of a digit character in the given radix, if it is one (upper and
      lower case letters both count, as in `parseInt`). */
  function DigitValue(c: char, radix: nat): (r: Option<nat>)
    requires 2 <= radix <= 36
    ensures r.Some? ==> r.value < radix
  {
    var v: int :=
      if '0' <= c <= '9' then c as int - '0' as int
      else if 'a' <= c <= 'z' then c as int - 'a' as int + 10
      else if 'A' <= c <= 'Z' then c as int - 'A' as int + 10
      else 36;
    if v < radix then Some(v) else None
  }

  /** The digits of `n` in `radix`, most significant first, no leading zeros (`n.toString(radix)`). */
  function NatToRadix(n: nat, radix: nat): (r: string)
    requires 2 <= radix <= 36
    ensures |r| >= 1
    ensures forall i :: 0 <= i < |r| ==> DigitValue(r[i], radix).Some?
    ensures |r| > 1 ==> r[0] != '0'
    decreases n
  {
    if n < radix then
      DigitCharValue(n, radix);
      [DigitChar(n)]
    else
      DivStep(n, radix);
      DigitCharValue(n % radix, radix);
      NatToRadix(n / radix, radix) + [DigitChar(n % radix)]
  }

  lemma DivStep(n: nat, radix: nat)
    requires 2 <= radix <= n
    ensures n / radix < n && n % radix < radix && n == (n / radix) * radix + n % radix
    ensures n / radix >= 1
  {
  }

  /** `${n}` for a non-negative integer. */
  function NatToDecimal(n: nat): (r: string)
    ensures |r| >= 1 && forall i :: 0 <= i < |r| ==> '0' <= r[i] <= '9'
  {
    NatToRadix(n, 10)
  }

  /** Length of the longest prefix of `s` made of digits of `radix`. */
  function DigitRun(s: string, radix: nat): (k: nat)
    requires 2 <= radix <= 36
    ensures k <= |s|
    ensures forall i :: 0 <= i < k ==> DigitValue(s[i], radix).Some?
    ensures k < |s| ==> DigitValue(s[k], radix).None?
  {
    if |s| > 0 && DigitValue(s[0], radix).Some? then 1 + DigitRun(s[1..], radix) else 0
  }

  /** Big-endian value of a digit string. */
  function RadixValue(d: string, radix: nat): nat
    requires 2 <= radix <= 36
    requires forall i :: 0 <= i < |d| ==> DigitValue(d[i], radix).Some?
  {
    if |d| == 0 then 0
    else
      var high := RadixValue(d[..|d| - 1], radix);
      MulMono(0, high, radix);
      high * radix + DigitValue(d[|d| - 1], radix).value
  }

  /** `b` to the power `e`. */
  function Power(b: nat, e: nat): nat
    decreases e
  {
    if e == 0 then 1 else b * Power(b, e - 1)
  }

  /** `0x` or `0X`, the prefix `parseInt` skips in radix 16. */
  predicate HexPrefixed(u: string) {
    |u| >= 2 && u[0] == '0' && (u[1] == 'x' || u[1] == 'X')
  }

  /** What `parseInt` reads once whitespace and sign are gone: in radix 16 an optional
      `0x`/`0X`, then the longest run of digits; `None` (`NaN`) when there is no digit. */
  function ParseUnsigned(u: string, radix: nat): (r: Option<int>)
    requires 2 <= radix <= 36
    ensures r.Some? ==> r.value >= 0
  {
    var w := if radix == 16 && HexPrefixed(u) then u[2..] else u;
    var k := DigitRun(w, radix);
    if k == 0 then None else Some(RadixValue(w[..k], radix))
  }

  /** What `parseInt` reads once whitespace is gone: an optional `-` or `+`, then the digits. */
  function ParseSigned(t: string, radix: nat): (r: Option<int>)
    requires 2 <= radix <= 36
  {
    if |t| > 0 && (t[0] == '-' || t[0] == '+') then
      var m := ParseUnsigned(t[1..], radix);
      if m.Some? && t[0] == '-' then Some(-m.value) else m
    else
      ParseUnsigned(t, radix)
  }

  /** `parseInt(s, radix)`: skip leading whitespace, read an optional sign, in radix 16
      skip a `0x`/`0X` prefix, then read the longest run of digits; `None` stands for
      `NaN` (no digit at all). */
  function ParseIntPrefix(s: string, radix: nat): (r: Option<int>)
    requires 2 <= radix <= 36
  {
    ParseSigned(TrimStart(s), radix)
  }

  /** A parse result that `n` characters can spell: a non-negative value below `radix^n`,
      a negative one below `radix^(n-1)` in magnitude, since its sign takes a character. */
  predicate WithinDigits(r: Option<int>, radix: nat, n: nat) {
    && (r.Some? && r.value >= 0 ==> r.value < Power(radix, n))
    && (r.Some? && r.value < 0 ==> n >= 1 && -r.value < Power(radix, n - 1))
  }

  lemma WithinMoreDigits(r: Option<int>, radix: nat, a: nat, b: nat)
    requires radix >= 1 && a <= b && WithinDigits(r, radix, a)
    ensures WithinDigits(r, radix, b)
  {
    PowerMono(radix, a, b);
    if a >= 1 {
      PowerMono(radix, a - 1, b - 1);
    }
  }

  /** The digits `parseInt` reads come from `s`, so a parsed value's magnitude is below
      `radix` to the power of the characters left for them: all of `s`, or all but the
      sign when the value is negative. */
  lemma ParseIntPrefixBound(s: string, radix: nat)
    requires 2 <= radix <= 36
    ensures WithinDigits(ParseIntPrefix(s, radix), radix, |s|)
  {
    var t := TrimStart(s);
    SignedBound(t, radix);
    WithinMoreDigits(ParseSigned(t, radix), radix, |t|, |s|);
  }

  lemma SignedBound(t: string, radix: nat)
    requires 2 <= radix <= 36
    ensures WithinDigits(ParseSigned(t, radix), radix, |t|)
  {
    if |t| > 0 && (t[0] == '-' || t[0] == '+') {
      UnsignedBound(t[1..], radix);
      PowerMono(radix, |t| - 1, |t|);
    } else {
      UnsignedBound(t, radix);
    }
  }

  lemma UnsignedBound(u: string, radix: nat)
    requires 2 <= radix <= 36
    ensures ParseUnsigned(u, radix).Some? ==> ParseUnsigned(u, radix).value < Power(radix, |u|)
  {
    var w := if radix == 16 && HexPrefixed(u) then u[2..] else u;
    var k := DigitRun(w, radix);
    if k > 0 {
      RadixValueBound(w[..k], radix);
      PowerMono(radix, k, |u|);
    }
  }

  lemma MulMono(a: nat, b: nat, c: nat)
    requires a <= b
    ensures a * c <= b * c
  {
  }

  lemma {:induction false} PowerMono(b: nat, e1: nat, e2: nat)
    requires b >= 1 && e1 <= e2
    ensures 1 <= Power(b, e1) <= Power(b, e2)
    decreases e2
  {
    if e2 > e1 {
      PowerMono(b, e1, e2 - 1);
      MulMono(1, b, Power(b, e2 - 1));
    } else if e1 > 0 {
      PowerMono(b, e1 - 1, e1 - 1);
      MulMono(1, b, Power(b, e1 - 1));
    }
  }

  /** One more digit keeps a value below the next power. */
  lemma DigitStep(a: nat, p: nat, radix: nat, digit: nat)
    requires a < p && digit < radix
    ensures a * radix + digit < radix * p
  {
    MulMono(a + 1, p, radix);
  }

  /** A string of `n` digits is worth less than `radix` to the `n`. */
  lemma {:induction false} RadixValueBound(d: string, radix: nat)
    requires 2 <= radix <= 36
    requires forall i :: 0 <= i < |d| ==> DigitValue(d[i], radix).Some?
    ensures RadixValue(d, radix) < Power(radix, |d|)
    decreases |d|
  {
    if |d| > 0 {
      var init := d[..|d| - 1];
      assert forall i :: 0 <= i < |init| ==> init[i] == d[i];
      RadixValueBound(init, radix);
      var a, p, digit := RadixValue(init, radix), Power(radix, |init|), DigitValue(d[|d| - 1], radix).value;
      DigitStep(a, p, radix, digit);
      assert RadixValue(d, radix) == a * radix + digit;
      assert Power(radix, |d|) == radix * p;
    }
  }

  /** In radix 16 `parseInt` skips a leading `0x` or `0X` and reads the digits right
      after it; with none there the result is `NaN`. */
  lemma HexPrefixSkipped(x: char, d: string)
    requires x == 'x' || x == 'X'
    ensures var k := DigitRun(d, 16);
      ParseIntPrefix(['0', x] + d, 16) == if k == 0 then None else Some(RadixValue(d[..k], 16))
  {
    HexPrefixUnsigned(x, d);
    NoLeadingSpace(['0', x] + d, 16);
  }

  /** After the sign too (see `SignThenDigits`), radix 16 skips `0x` or `0X`; nothing
      else (no second sign, no space) may come between it and the digits. */
  lemma HexPrefixUnsigned(x: char, d: string)
    requires x == 'x' || x == 'X'
    ensures var k := DigitRun(d, 16);
      ParseUnsigned(['0', x] + d, 16) == if k == 0 then None else Some(RadixValue(d[..k], 16))
  {
    var u := ['0', x] + d;
    assert HexPrefixed(u) && u[2..] == d;
  }

  /** Without leading whitespace `parseInt` goes straight to the sign. */
  lemma NoLeadingSpace(s: string, radix: nat)
    requires 2 <= radix <= 36
    requires s == [] || !IsJsWhitespace(s[0])
    ensures ParseIntPrefix(s, radix) == ParseSigned(s, radix)
  {
    assert TrimStart(s) == s;
  }

  /** A sign in front of the digits: `-` negates what follows, `+` keeps it. */
  lemma SignThenDigits(s: string, radix: nat)
    requires 2 <= radix <= 36
    requires |s| > 0 && (s[0] == '-' || s[0] == '+')
    ensures var m := ParseUnsigned(s[1..], radix);
      ParseIntPrefix(s, radix) == if m.Some? && s[0] == '-' then Some(-m.value) else m
  {
    NoLeadingSpace(s, radix);
  }

  lemma {:induction false} DigitCharValue(n: nat, radix: nat)
    requires 2 <= radix <= 36 && n < radix
    ensures DigitValue(DigitChar(n), radix) == Some(n)
  {
  }

  lemma RadixValueSnoc(p: string, c: char, radix: nat)
    requires 2 <= radix <= 36
    requires forall i :: 0 <= i < |p| ==> DigitValue(p[i], radix).Some?
    requires DigitValue(c, radix).Some?
    ensures forall i :: 0 <= i < |p + [c]| ==> DigitValue((p + [c])[i], radix).Some?
    ensures RadixValue(p + [c], radix) == RadixValue(p, radix) * radix + DigitValue(c, radix).value
  {
    assert (p + [c])[..|p|] == p;
  }

  /** Reading back the digits printed for `n` gives `n`. */
  lemma {:induction false} RadixRoundTrip(n: nat, radix: nat)
    requires 2 <= radix <= 36
    ensures forall i :: 0 <= i < |NatToRadix(n, radix)| ==> DigitValue(NatToRadix(n, radix)[i], radix).Some?
    ensures RadixValue(NatToRadix(n, radix), radix) == n
    decreases n
  {
    if n < radix {
      DigitCharValue(n, radix);
    } else {
      DivStep(n, radix);
      var q, d := n / radix, n % radix;
      var p := NatToRadix(q, radix);
      RadixRoundTrip(q, radix);
      DigitCharValue(d, radix);
      assert NatToRadix(n, radix) == p + [DigitChar(d)];
      RadixValueSnoc(p, DigitChar(d), radix);
      var v := RadixValue(p, radix);
      assert v == q;
      assert v * radix + d == n;
    }
  }

  /** A digit is neither whitespace nor a sign. */
  lemma DigitIsPlain(c: char, radix: nat)
    requires 2 <= radix <= 36 && DigitValue(c, radix).Some?
    ensures !IsJsWhitespace(c) && c != '-' && c != '+'
  {
  }

  /** `parseInt` of a string that starts with `k` digits reads exactly those digits. */
  lemma ParseDigits(s: string, radix: nat, k: nat)
    requires 2 <= radix <= 36 && 0 < k <= |s|
    requires DigitRun(s, radix) == k
    requires radix != 16 || !HexPrefixed(s)
    ensures ParseIntPrefix(s, radix) == Some(RadixValue(s[..k], radix))
  {
    DigitIsPlain(s[0], radix);
    NoLeadingSpace(s, radix);
  }

  /** `parseInt(String(n), 10) == n` for every non-negative integer `n`, also when a
      tail that does not start with a digit is written after it. */
  lemma DecimalRoundTrip(n: nat, tail: string)
    requires tail == [] || DigitValue(tail[0], 10).None?
    ensures ParseIntPrefix(NatToDecimal(n) + tail, 10) == Some(n)
  {
    var d := NatToDecimal(n);
    var s := d + tail;
    RadixRoundTrip(n, 10);
    DigitRunOf(d, tail, 10);
    assert s[..|d|] == d;
    ParseDigits(s, 10, |d|);
  }

  /** `parseInt` of what follows a label recovers the number printed there. */
  lemma ReadNumber(prefix: string, n: nat, tail: string)
    requires tail == [] || DigitValue(tail[0], 10).None?
    ensures (prefix + NatToDecimal(n) + tail)[|prefix|..] == NatToDecimal(n) + tail
    ensures ParseIntPrefix((prefix + NatToDecimal(n) + tail)[|prefix|..], 10) == Some(n)
  {
    assert (prefix + NatToDecimal(n) + tail)[|prefix|..] == NatToDecimal(n) + tail;
    DecimalRoundTrip(n, tail);
  }

  lemma {:induction false} DigitRunOf(d: string, tail: string, radix: nat)
    requires 2 <= radix <= 36
    requires forall i :: 0 <= i < |d| ==> DigitValue(d[i], radix).Some?
    requires tail == [] || DigitValue(tail[0], radix).None?
    ensures DigitRun(d + tail, radix) == |d|
  {
    if |d| > 0 {
      assert (d + tail)[1..] == d[1..] + tail;
      DigitRunOf(d[1..], tail, radix);
    } else {
      assert d + tail == tail;
    }
  }
}
