/** The brand -> colour-list table of lib/palette-registry.ts, the merge of several
    brands' lists, and the `#RRGGBB` parsing used to build colour records. */
module PaletteRegistry {
  import opened Util
  import opened Text

  datatype BrandId = Artkal | Perler | Hama

  /** The brand's identifier as the source spells it. */
  function BrandName(b: BrandId): (s: string)
    ensures |s| > 0 && ':' !in s
  {
    match b
    case Artkal => "artkal"
    case Perler => "perler"
    case Hama => "hama"
  }

  /** One catalogue colour. `special` marks fluorescent, glow and translucent beads. */
  datatype BeadColor = BeadColor(
    brand: BrandId,
    code: string,
    uid: string,
    name: string,
    hex: string,
    r: int,
    g: int,
    b: int,
    special: bool)

  // ---------------------------------------------------------------------------
  // Specification of the merge

  /** The palettes of the registered brands among `brands`, concatenated in list order;
      unregistered brands contribute nothing. */
  function Concatenation(table: map<BrandId, seq<BeadColor>>, brands: seq<BrandId>): seq<BeadColor>
    decreases |brands|
  {
    if |brands| == 0 then []
    else
      var last := brands[|brands| - 1];
      Concatenation(table, brands[..|brands| - 1])
        + (if last in table then table[last] else [])
  }

  /** `colors.filter((c) => !c.special)`. */
  function NonSpecial(s: seq<BeadColor>): seq<BeadColor> {
    if |s| == 0 then []
    else NonSpecial(s[..|s| - 1]) + (if s[|s| - 1].special then [] else [s[|s| - 1]])
  }

  /** What `getMergedPalette(brands, solidOnly)` returns for a given registry table. */
  function MergedPalette(table: map<BrandId, seq<BeadColor>>, brands: seq<BrandId>, solidOnly: bool): seq<BeadColor> {
    var merged := Concatenation(table, brands);
    if solidOnly then NonSpecial(merged) else merged
  }

  // ---------------------------------------------------------------------------
  // The registry object

  /** The module-level `registry` Map. `order` is the Map's key insertion order, which is
      what `Array.from(registry.keys())` lists. */
  class Registry {
    var table: map<BrandId, seq<BeadColor>>
    var order: seq<BrandId>

    ghost predicate Valid()
      reads this
    {
      && (forall i, j :: 0 <= i < j < |order| ==> order[i] != order[j])
      && (forall b :: b in table <==> b in order)
    }

    constructor ()
      ensures Valid() && table == map[] && order == []
    {
      table := map[];
      order := [];
    }

    /** `registerPalette(brand, colors)`: stores or overwrites the brand's list. A brand
        registered again keeps its place in the key order. */
    method RegisterPalette(brand: BrandId, colors: seq<BeadColor>)
      requires Valid()
      modifies this
      ensures Valid()
      ensures table == old(table)[brand := colors]
      ensures order == if brand in old(table) then old(order) else old(order) + [brand]
    {
      if brand !in table {
        order := order + [brand];
      }
      table := table[brand := colors];
    }

    /** `getPalette(brand)`: the registered list, or the empty list. */
    function GetPalette(brand: BrandId): (r: seq<BeadColor>)
      reads this
      ensures brand in table ==> r == table[brand]
      ensures brand !in table ==> r == []
    {
      if brand in table then table[brand] else []
    }

    /** `getRegisteredBrands()`: every registered brand exactly once, in first-registration order. */
    function GetRegisteredBrands(): (r: seq<BrandId>)
      requires Valid()
      reads this
      ensures forall b :: b in r <==> b in table
      ensures forall i, j :: 0 <= i < j < |r| ==> r[i] != r[j]
    {
      order
    }

    /** `getMergedPalette(brands, solidOnly)`: the push loop over the brands, then the filter. */
    method GetMergedPalette(brands: seq<BrandId>, solidOnly: bool) returns (result: seq<BeadColor>)
      ensures result == MergedPalette(table, brands, solidOnly)
    {
      var merged: seq<BeadColor> := [];
      var i := 0;
      while i < |brands|
        invariant 0 <= i <= |brands|
        invariant merged == Concatenation(table, brands[..i])
      {
        assert brands[..i + 1][..i] == brands[..i];
        if brands[i] in table {
          merged := merged + table[brands[i]];
        }
        i := i + 1;
      }
      assert brands[..|brands|] == brands;
      if solidOnly {
        result := NonSpecial(merged);
      } else {
        result := merged;
      }
    }
  }

  /** Registering a brand makes `getPalette` return exactly that list; a later registration of
      the same brand wins without adding a second key, and other brands are untouched. */
  method RegisterThenGet(reg: Registry, b: BrandId, first: seq<BeadColor>, second: seq<BeadColor>, other: BrandId)
      returns (afterFirst: seq<BeadColor>, afterSecond: seq<BeadColor>)
    requires reg.Valid() && other != b
    modifies reg
    ensures afterFirst == first && afterSecond == second
    ensures reg.Valid() && reg.GetPalette(b) == second
    ensures reg.GetPalette(other) == old(reg.GetPalette(other))
    ensures reg.GetRegisteredBrands() == if b in old(reg.table) then old(reg.order) else old(reg.order) + [b]
  {
    reg.RegisterPalette(b, first);
    afterFirst := reg.GetPalette(b);
    reg.RegisterPalette(b, second);
    afterSecond := reg.GetPalette(b);
  }

  // ---------------------------------------------------------------------------
  // Properties of the merge

  /** Concatenation distributes over splitting the brand list. */
  lemma {:induction false} ConcatenationAppend(table: map<BrandId, seq<BeadColor>>, a: seq<BrandId>, b: seq<BrandId>)
    ensures Concatenation(table, a + b) == Concatenation(table, a) + Concatenation(table, b)
    decreases |b|
  {
    if |b| == 0 {
      assert a + b == a;
    } else {
      var b' := b[..|b| - 1];
      assert (a + b)[..|a + b| - 1] == a + b';
      ConcatenationAppend(table, a, b');
    }
  }

  /** Without `solidOnly` a colour is in the merged palette exactly when one of the listed,
      registered brands' palettes holds it. */
  lemma {:induction false} ConcatenationMembers(table: map<BrandId, seq<BeadColor>>, brands: seq<BrandId>, c: BeadColor)
    ensures c in Concatenation(table, brands)
      <==> exists i :: 0 <= i < |brands| && brands[i] in table && c in table[brands[i]]
    decreases |brands|
  {
    if |brands| > 0 {
      var init := brands[..|brands| - 1];
      ConcatenationMembers(table, init, c);
      assert forall i :: 0 <= i < |init| ==> init[i] == brands[i];
    }
  }

  /** Each registered brand's palette appears whole and in its own order in the merged
      list, starting right after the palettes of the brands listed before it. */
  lemma BrandSlice(table: map<BrandId, seq<BeadColor>>, brands: seq<BrandId>, i: nat)
    requires i < |brands| && brands[i] in table
    ensures var off := |Concatenation(table, brands[..i])|;
      var pal := table[brands[i]];
      off + |pal| <= |Concatenation(table, brands)|
      && Concatenation(table, brands)[off..off + |pal|] == pal
  {
    var pal := table[brands[i]];
    assert brands == brands[..i] + ([brands[i]] + brands[i + 1..]);
    ConcatenationAppend(table, brands[..i], [brands[i]] + brands[i + 1..]);
    ConcatenationAppend(table, [brands[i]], brands[i + 1..]);
    assert [brands[i]][..0] == [];
    assert Concatenation(table, [brands[i]]) == pal;
  }

  /** The brands that are registered, in list order. */
  function Registered(table: map<BrandId, seq<BeadColor>>, brands: seq<BrandId>): (r: seq<BrandId>)
    ensures forall b :: b in r ==> b in table && b in brands
  {
    if |brands| == 0 then []
    else
      Registered(table, brands[..|brands| - 1])
        + (if brands[|brands| - 1] in table then [brands[|brands| - 1]] else [])
  }

  /** Unregistered brands are skipped without error: the merge of the whole list is the
      merge of its registered brands. */
  lemma {:induction false} UnregisteredSkipped(table: map<BrandId, seq<BeadColor>>, brands: seq<BrandId>, solidOnly: bool)
    ensures MergedPalette(table, brands, solidOnly) == MergedPalette(table, Registered(table, brands), solidOnly)
    ensures Registered(table, brands) == [] ==> MergedPalette(table, brands, solidOnly) == []
  {
    ConcatenationOfRegistered(table, brands);
  }

  lemma {:induction false} ConcatenationOfRegistered(table: map<BrandId, seq<BeadColor>>, brands: seq<BrandId>)
    ensures Concatenation(table, brands) == Concatenation(table, Registered(table, brands))
    decreases |brands|
  {
    if |brands| > 0 {
      var init, last := brands[..|brands| - 1], brands[|brands| - 1];
      ConcatenationOfRegistered(table, init);
      var rest: seq<BrandId> := if last in table then [last] else [];
      ConcatenationAppend(table, Registered(table, init), rest);
      if last in table {
        assert [last][..0] == [];
      }
    }
  }

  /** The filter distributes over concatenation, so it keeps each brand's order. */
  lemma {:induction false} NonSpecialAppend(a: seq<BeadColor>, b: seq<BeadColor>)
    ensures NonSpecial(a + b) == NonSpecial(a) + NonSpecial(b)
    decreases |b|
  {
    if |b| == 0 {
      assert a + b == a;
    } else {
      assert (a + b)[..|a + b| - 1] == a + b[..|b| - 1];
      NonSpecialAppend(a, b[..|b| - 1]);
    }
  }

  /** With `solidOnly`, the result holds exactly the non-special colours of the unfiltered
      merge, each as many times as there, and is never longer. */
  lemma {:induction false} NonSpecialCounts(s: seq<BeadColor>, c: BeadColor)
    ensures multiset(NonSpecial(s))[c] == if c.special then 0 else multiset(s)[c]
    ensures |NonSpecial(s)| <= |s|
    ensures forall x :: x in NonSpecial(s) ==> x in s && !x.special
    decreases |s|
  {
    if |s| > 0 {
      var init, last := s[..|s| - 1], s[|s| - 1];
      NonSpecialCounts(init, c);
      assert s == init + [last];
      assert NonSpecial(s) == NonSpecial(init) + (if last.special then [] else [last]);
    }
  }

  /** The merged palette never holds a colour absent from the listed brands' palettes. */
  lemma MergedFromSources(table: map<BrandId, seq<BeadColor>>, brands: seq<BrandId>, solidOnly: bool, c: BeadColor)
    requires c in MergedPalette(table, brands, solidOnly)
    ensures exists i :: 0 <= i < |brands| && brands[i] in table && c in table[brands[i]]
    ensures solidOnly ==> !c.special
    ensures |MergedPalette(table, brands, solidOnly)| <= |Concatenation(table, brands)|
  {
    NonSpecialCounts(Concatenation(table, brands), c);
    ConcatenationMembers(table, brands, c);
  }

  // ---------------------------------------------------------------------------
  // hex2rgb and makeBeadColor

  /** `s.substring(a, b)` for `a <= b`: the indices are clamped to the string. */
  function Substring(s: string, a: nat, b: nat): (r: string)
    requires a <= b
    ensures |r| <= b - a
  {
    var a', b' := if a < |s| then a else |s|, if b < |s| then b else |s|;
    s[a'..b']
  }

  /** The channels of `hex2rgb`; `None` stands for `NaN`. */
  datatype ParsedRgb = ParsedRgb(r: Option<int>, g: Option<int>, b: Option<int>)

  /** `hex2rgb(hex)`: drop the first `#`, then `parseInt` each two-character slice in base 16.
      A channel that parses lies in [-15, 255]: two hex digits at most, or a sign and one. */
  function Hex2Rgb(hex: string): (rgb: ParsedRgb)
    ensures rgb.r.Some? ==> -15 <= rgb.r.value <= 255
    ensures rgb.g.Some? ==> -15 <= rgb.g.value <= 255
    ensures rgb.b.Some? ==> -15 <= rgb.b.value <= 255
  {
    var h := ReplaceFirst(hex, "#", "");
    var r, g, b := Substring(h, 0, 2), Substring(h, 2, 4), Substring(h, 4, 6);
    ChannelBound(r);
    ChannelBound(g);
    ChannelBound(b);
    ParsedRgb(ParseIntPrefix(r, 16), ParseIntPrefix(g, 16), ParseIntPrefix(b, 16))
  }

  /** `parseInt` of at most two characters in base 16 lies in [-15, 255]. */
  lemma ChannelBound(s: string)
    requires |s| <= 2
    ensures ParseIntPrefix(s, 16).Some? ==> -15 <= ParseIntPrefix(s, 16).value <= 255
  {
    ParseIntPrefixBound(s, 16);
    PowerMono(16, |s|, 2);
    assert Power(16, 2) == 256 by {
      assert Power(16, 1) == 16;
    }
    if |s| >= 1 {
      PowerMono(16, |s| - 1, 1);
      assert Power(16, 1) == 16;
    }
  }

  predicate IsHexDigit(c: char) {
    DigitValue(c, 16).Some?
  }

  /** `#` followed by exactly six hexadecimal digits. */
  predicate IsHexColor(hex: string) {
    |hex| == 7 && hex[0] == '#' && forall i :: 1 <= i < 7 ==> IsHexDigit(hex[i])
  }

  /** Big-endian value of a pair of hex digits. */
  function PairValue(hi: char, lo: char): (v: nat)
    requires IsHexDigit(hi) && IsHexDigit(lo)
    ensures v <= 255
  {
    DigitValue(hi, 16).value * 16 + DigitValue(lo, 16).value
  }

  lemma PairParses(hi: char, lo: char)
    requires IsHexDigit(hi) && IsHexDigit(lo)
    ensures ParseIntPrefix([hi, lo], 16) == Some(PairValue(hi, lo) as int)
  {
    PairIsDigits(hi, lo);
    ParseDigits([hi, lo], 16, 2);
    PairRadixValue(hi, lo);
  }

  lemma PairIsDigits(hi: char, lo: char)
    requires IsHexDigit(hi) && IsHexDigit(lo)
    ensures DigitRun([hi, lo], 16) == 2 && !HexPrefixed([hi, lo])
  {
    var s := [hi, lo];
    assert DigitRun(s[1..], 16) == 1;
    assert DigitValue('x', 16).None? && DigitValue('X', 16).None?;
  }

  lemma PairRadixValue(hi: char, lo: char)
    requires IsHexDigit(hi) && IsHexDigit(lo)
    ensures RadixValue([hi, lo][..2], 16) == PairValue(hi, lo)
  {
    var s := [hi, lo];
    assert s[..2] == s && s[..1] == [hi] && [hi][..0] == [];
    assert RadixValue([hi], 16) == DigitValue(hi, 16).value;
  }

  /** On `#` plus six hex digits, each channel is the value of its digit pair, in [0, 255]. */
  lemma Hex2RgbOfHexColor(hex: string)
    requires IsHexColor(hex)
    ensures Hex2Rgb(hex) == ParsedRgb(
      Some(PairValue(hex[1], hex[2]) as int),
      Some(PairValue(hex[3], hex[4]) as int),
      Some(PairValue(hex[5], hex[6]) as int))
  {
    assert hex[..1] == "#";
    var h := ReplaceFirst(hex, "#", "");
    assert h == hex[1..];
    assert Substring(h, 0, 2) == [hex[1], hex[2]];
    assert Substring(h, 2, 4) == [hex[3], hex[4]];
    assert Substring(h, 4, 6) == [hex[5], hex[6]];
    PairParses(hex[1], hex[2]);
    PairParses(hex[3], hex[4]);
    PairParses(hex[5], hex[6]);
  }

  /** An upper-case hex digit. */
  function UpperHexDigit(d: nat): char
    requires d < 16
  {
    if d < 10 then ('0' as int + d) as char else ('A' as int + d - 10) as char
  }

  /** A byte written as two upper-case hex digits, as the palette tables write them. */
  function HexByte(v: nat): (s: string)
    requires v <= 255
    ensures |s| == 2 && IsHexDigit(s[0]) && IsHexDigit(s[1])
  {
    HexDigitOf(v / 16);
    HexDigitOf(v % 16);
    [UpperHexDigit(v / 16), UpperHexDigit(v % 16)]
  }

  lemma HexDigitOf(d: nat)
    requires d < 16
    ensures DigitValue(UpperHexDigit(d), 16) == Some(d)
  {
  }

  /** The value of the two digits `HexByte` writes is the byte. */
  lemma HexBytePair(v: nat)
    requires v <= 255
    ensures PairValue(HexByte(v)[0], HexByte(v)[1]) == v
  {
    HexDigitOf(v / 16);
    HexDigitOf(v % 16);
  }

  /** `#RRGGBB` for three bytes. */
  function FormatHex(r: nat, g: nat, b: nat): (hex: string)
    requires r <= 255 && g <= 255 && b <= 255
    ensures IsHexColor(hex)
    ensures PairValue(hex[1], hex[2]) == r && PairValue(hex[3], hex[4]) == g && PairValue(hex[5], hex[6]) == b
  {
    var hr, hg, hb := HexByte(r), HexByte(g), HexByte(b);
    HexBytePair(r);
    HexBytePair(g);
    HexBytePair(b);
    ['#', hr[0], hr[1], hg[0], hg[1], hb[0], hb[1]]
  }

  /** Writing three bytes as `#RRGGBB` and parsing with `hex2rgb` gives the bytes back. */
  lemma Hex2RgbRoundTrip(r: nat, g: nat, b: nat)
    requires r <= 255 && g <= 255 && b <= 255
    ensures Hex2Rgb(FormatHex(r, g, b)) == ParsedRgb(Some(r), Some(g), Some(b))
  {
    Hex2RgbOfHexColor(FormatHex(r, g, b));
  }

  /** `${brand}:${code}`. */
  function MakeUid(brand: BrandId, code: string): string {
    BrandName(brand) + ":" + code
  }

  /** uids are globally unique: the uid determines both the brand and the in-brand code. */
  lemma UidInjective(b1: BrandId, c1: string, b2: BrandId, c2: string)
    requires MakeUid(b1, c1) == MakeUid(b2, c2)
    ensures b1 == b2 && c1 == c2
  {
    var u1, u2 := MakeUid(b1, c1), MakeUid(b2, c2);
    assert u1[0] == BrandName(b1)[0] && u2[0] == BrandName(b2)[0];
    var n := |BrandName(b1)| + 1;
    assert b1 == b2;
    assert u1[n..] == c1 && u2[n..] == c2;
  }

  /** `makeBeadColor(brand, code, name, hex, special)`. */
  function MakeBeadColor(brand: BrandId, code: string, name: string, hex: string, special: Option<bool>): (c: BeadColor)
    requires IsHexColor(hex)
    ensures c.brand == brand && c.code == code && c.name == name && c.hex == hex
    ensures c.uid == MakeUid(brand, code)
    ensures Hex2Rgb(hex) == ParsedRgb(Some(c.r), Some(c.g), Some(c.b))
    ensures 0 <= c.r <= 255 && 0 <= c.g <= 255 && 0 <= c.b <= 255
    ensures c.special <==> special.Some? && special.value
  {
    Hex2RgbOfHexColor(hex);
    var rgb := Hex2Rgb(hex);
    BeadColor(brand, code, MakeUid(brand, code), name, hex,
      rgb.r.value, rgb.g.value, rgb.b.value, special.GetOr(false))
  }
}
